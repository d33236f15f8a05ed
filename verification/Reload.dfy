/** Queries, zone transfers and reloads, interleaved in any way the readers-writer lock allows
  * (`handle_signals` in `src/main.rs`, `process_query`, the AXFR branch of `src/server.rs`).
  */
module Reload {
  import opened Wrappers
  import opened Names
  import opened Records
  import opened FlatZones
  import opened Messages
  import opened Responses

  type TaskId = nat

  /** Where a task is. From `Reading` to `Streaming` it holds the read lock. */
  datatype Phase =
    | Spawned
    | Reading
    | Found(choice: Option<Name>)
    | Answered(response: Message)
    | Streaming(pending: seq<Record>, sent: seq<Record>)
    | Replied(response: Message)
    | Transferred(sent: seq<Record>)
    | Aborted(sent: seq<Record>)

  /** `transfer` marks an AXFR over TCP. The version numbers are bookkeeping: the store current
    * when the task was spawned, when it got the lock, and when it finished. */
  datatype Task = Task(query: Message, transfer: bool, phase: Phase, born: nat, held: nat, ended: nat)

  /** The reload loop: loading happens outside the lock, the swap under the write lock. */
  datatype Loader = Idle | Loading | Ready(store: FlatStore) | Swapping(store: FlatStore) | Swapped

  /** `versions` is the history of the store, `holders` the version each lock holder saw. */
  datatype System = System(
    store: FlatStore, readers: set<TaskId>, writing: bool, loader: Loader,
    tasks: map<TaskId, Task>, versions: seq<FlatStore>, holders: seq<nat>)

  datatype Event =
    | Spawn(id: TaskId, query: Message, transfer: bool)
    | ReplyUnlocked(id: TaskId)
    | AcquireRead(id: TaskId)
    | FindZone(id: TaskId, choice: Option<Name>)
    | BuildAnswer(id: TaskId)
    | CollectRecords(id: TaskId)
    | SendRecord(id: TaskId)
    | ReleaseRead(id: TaskId)
    | Disconnect(id: TaskId)
    | Sighup
    | LoadFailed
    | Loaded(store: FlatStore)
    | AcquireWrite
    | Swap
    | ReleaseWrite

  predicate IsLoaderEvent(e: Event) {
    e.Sighup? || e.LoadFailed? || e.Loaded? || e.AcquireWrite? || e.Swap? || e.ReleaseWrite?
  }

  predicate Holds(p: Phase) {
    p.Reading? || p.Found? || p.Answered? || p.Streaming?
  }

  predicate ValidTransfer(query: Message) {
    query.questions != [] && query.questions[0].qtype == AXFR
  }

  /** The reply to a transfer request for a name no zone encloses. */
  function RefusedTransfer(query: Message): Message
    requires ValidTransfer(query)
  {
    BLANK.(id := query.id, isResponse := true, rcode := Refused, questions := [query.questions[0]])
  }

  function Current(s: System): nat {
    if s.versions == [] then 0 else |s.versions| - 1
  }

  function SetPhase(s: System, id: TaskId, p: Phase): System
    requires id in s.tasks
  {
    s.(tasks := s.tasks[id := s.tasks[id].(phase := p)])
  }

  function Finish(s: System, id: TaskId, p: Phase): System
    requires id in s.tasks
  {
    s.(readers := s.readers - {id},
       tasks := s.tasks[id := s.tasks[id].(phase := p, ended := Current(s))])
  }

  predicate Enabled(s: System, e: Event) {
    match e
    case Spawn(id, query, transfer) => id !in s.tasks && (transfer ==> ValidTransfer(query))
    case ReplyUnlocked(id) =>
      id in s.tasks && s.tasks[id].phase == Spawned && !s.tasks[id].transfer && !NeedsZone(s.tasks[id].query)
    case AcquireRead(id) =>
      && id in s.tasks && s.tasks[id].phase == Spawned && !s.writing
      && (s.tasks[id].transfer || NeedsZone(s.tasks[id].query))
    case FindZone(id, choice) =>
      && id in s.tasks && s.tasks[id].phase == Reading && s.tasks[id].query.questions != []
      && Selects(s.store.Keys, s.tasks[id].query.questions[0].name, choice)
    case BuildAnswer(id) =>
      && id in s.tasks && s.tasks[id].phase.Found?
      && (s.tasks[id].phase.choice.Some? ==> s.tasks[id].phase.choice.value in s.store)
      && (s.tasks[id].transfer ==> s.tasks[id].phase.choice == None && ValidTransfer(s.tasks[id].query))
    case CollectRecords(id) =>
      && id in s.tasks && s.tasks[id].phase.Found? && s.tasks[id].transfer
      && s.tasks[id].phase.choice.Some? && s.tasks[id].phase.choice.value in s.store
    case SendRecord(id) =>
      id in s.tasks && s.tasks[id].phase.Streaming? && s.tasks[id].phase.pending != []
    case ReleaseRead(id) =>
      && id in s.tasks
      && (s.tasks[id].phase.Answered? || (s.tasks[id].phase.Streaming? && s.tasks[id].phase.pending == []))
    case Disconnect(id) => id in s.tasks && s.tasks[id].phase.Streaming?
    case Sighup => s.loader == Idle
    case LoadFailed => s.loader == Loading
    case Loaded(_) => s.loader == Loading
    case AcquireWrite => s.loader.Ready? && s.readers == {} && !s.writing
    case Swap => s.loader.Swapping?
    case ReleaseWrite => s.loader == Swapped
  }

  function Apply(s: System, e: Event): System
    requires Enabled(s, e)
  {
    match e
    case Spawn(id, query, transfer) =>
      s.(tasks := s.tasks[id := Task(query, transfer, Spawned, Current(s), 0, 0)])
    case ReplyUnlocked(id) => Finish(s, id, Replied(Reply(map[], None, s.tasks[id].query)))
    case AcquireRead(id) =>
      s.(readers := s.readers + {id},
         tasks := s.tasks[id := s.tasks[id].(phase := Reading, held := Current(s))],
         holders := s.holders + [Current(s)])
    case FindZone(id, choice) => SetPhase(s, id, Found(choice))
    case BuildAnswer(id) =>
      var t := s.tasks[id];
      SetPhase(s, id, Answered(
        if t.transfer then RefusedTransfer(t.query) else Reply(s.store, t.phase.choice, t.query)))
    case CollectRecords(id) =>
      SetPhase(s, id, Streaming(s.store[s.tasks[id].phase.choice.value].TransferStream(), []))
    case SendRecord(id) =>
      var p := s.tasks[id].phase;
      SetPhase(s, id, Streaming(p.pending[1..], p.sent + [p.pending[0]]))
    case ReleaseRead(id) =>
      var p := s.tasks[id].phase;
      Finish(s, id, if p.Answered? then Replied(p.response) else Transferred(p.sent))
    case Disconnect(id) => Finish(s, id, Aborted(s.tasks[id].phase.sent))
    case Sighup => s.(loader := Loading)
    case LoadFailed => s.(loader := Idle)
    case Loaded(store) => s.(loader := Ready(store))
    case AcquireWrite =>
      s.(loader := Swapping(s.loader.store), writing := true, holders := s.holders + [Current(s)])
    case Swap => s.(store := s.loader.store, versions := s.versions + [s.loader.store], loader := Swapped)
    case ReleaseWrite => s.(loader := Idle, writing := false)
  }

  /** A run, if every event is possible when it comes. */
  function RunFrom(s: System, events: seq<Event>): Option<System>
    decreases |events|
  {
    if events == [] then Some(s)
    else if !Enabled(s, events[0]) then None
    else RunFrom(Apply(s, events[0]), events[1..])
  }

  function Init(store: FlatStore): System {
    System(store, {}, false, Idle, map[], [store], [])
  }

  // ----- what every step keeps -----

  /** The response is one that a single version of the store gives. */
  ghost predicate GoodReply(v: FlatStore, t: Task, response: Message) {
    if t.transfer then
      && ValidTransfer(t.query)
      && Selects(v.Keys, t.query.questions[0].name, None)
      && response == RefusedTransfer(t.query)
    else IsResponse(v, t.query, response)
  }

  /** The stream is the complete transfer of a zone of a single version. */
  ghost predicate GoodStream(v: FlatStore, t: Task, stream: seq<Record>) {
    && t.transfer && ValidTransfer(t.query)
    && exists c :: c in v && Selects(v.Keys, t.query.questions[0].name, Some(c)) && stream == v[c].TransferStream()
  }

  /** The stream is the beginning of such a transfer. */
  ghost predicate GoodStart(v: FlatStore, t: Task, sent: seq<Record>) {
    exists rest :: GoodStream(v, t, sent + rest)
  }

  /** The version that was current at some instant between spawning and finishing. */
  predicate CurrentDuring(versions: seq<FlatStore>, t: Task, k: int) {
    t.born <= k <= t.ended < |versions|
  }

  ghost predicate TaskOk(versions: seq<FlatStore>, t: Task) {
    && t.born < |versions|
    && (t.transfer ==> ValidTransfer(t.query))
    && (Holds(t.phase) ==>
          && t.held == |versions| - 1
          && (t.transfer || NeedsZone(t.query)))
    && match t.phase
       case Spawned => true
       case Reading => true
       case Found(choice) => Selects(versions[t.held].Keys, t.query.questions[0].name, choice)
       case Answered(response) => GoodReply(versions[t.held], t, response)
       case Streaming(pending, sent) => GoodStream(versions[t.held], t, sent + pending)
       case Replied(response) => exists k :: CurrentDuring(versions, t, k) && GoodReply(versions[k], t, response)
       case Transferred(sent) => exists k :: CurrentDuring(versions, t, k) && GoodStream(versions[k], t, sent)
       case Aborted(sent) => exists k :: CurrentDuring(versions, t, k) && GoodStart(versions[k], t, sent)
  }

  ghost predicate Ascending(holders: seq<nat>, last: nat) {
    && (forall i, j :: 0 <= i < j < |holders| ==> holders[i] <= holders[j])
    && (forall i :: 0 <= i < |holders| ==> holders[i] <= last)
  }

  ghost predicate Inv(s: System) {
    && s.versions != [] && s.store == s.versions[|s.versions| - 1]
    && (s.writing ==> s.readers == {})
    && (s.writing <==> s.loader.Swapping? || s.loader.Swapped?)
    && (forall id :: id in s.readers <==> id in s.tasks && Holds(s.tasks[id].phase))
    && (forall id :: id in s.tasks ==> TaskOk(s.versions, s.tasks[id]))
    && Ascending(s.holders, |s.versions| - 1)
  }

  /** A task that holds no lock does not mind a new version. */
  lemma TaskOkGrows(versions: seq<FlatStore>, t: Task, new_: FlatStore)
    requires TaskOk(versions, t) && !Holds(t.phase)
    ensures TaskOk(versions + [new_], t)
  {
    match t.phase
    case Replied(response) =>
      var k :| CurrentDuring(versions, t, k) && GoodReply(versions[k], t, response);
      assert CurrentDuring(versions + [new_], t, k) && (versions + [new_])[k] == versions[k];
    case Transferred(sent) =>
      var k :| CurrentDuring(versions, t, k) && GoodStream(versions[k], t, sent);
      assert CurrentDuring(versions + [new_], t, k) && (versions + [new_])[k] == versions[k];
    case Aborted(sent) =>
      var k :| CurrentDuring(versions, t, k) && GoodStart(versions[k], t, sent);
      assert CurrentDuring(versions + [new_], t, k) && (versions + [new_])[k] == versions[k];
    case _ =>
  }

  predicate IsFinish(e: Event) {
    e.ReplyUnlocked? || e.ReleaseRead? || e.Disconnect?
  }

  /** A task's steps up to the moment it finishes keep its part of the invariant. */
  lemma StepTaskOk(s: System, e: Event)
    requires Inv(s) && Enabled(s, e) && !IsLoaderEvent(e) && !IsFinish(e)
    ensures TaskOk(s.versions, Apply(s, e).tasks[e.id])
  {
    match e
    case Spawn(_, _, _) =>
    case AcquireRead(_) =>
    case FindZone(_, _) =>
    case BuildAnswer(id) =>
      var t := s.tasks[id];
      if !t.transfer {
        assert Allows(s.store, t.query, t.phase.choice);
      }
    case CollectRecords(id) =>
      var p := Apply(s, e).tasks[id].phase;
      assert p.sent + p.pending == p.pending;
    case SendRecord(id) =>
      var p := s.tasks[id].phase;
      assert (p.sent + [p.pending[0]]) + p.pending[1..] == p.sent + p.pending;
  }

  /** So does finishing: the version read is one that was current while the task ran. */
  lemma FinishTaskOk(s: System, e: Event)
    requires Inv(s) && Enabled(s, e) && IsFinish(e)
    ensures TaskOk(s.versions, Apply(s, e).tasks[e.id])
  {
    var t, t' := s.tasks[e.id], Apply(s, e).tasks[e.id];
    if e.ReplyUnlocked? {
      var v := s.versions[Current(s)];
      assert Allows(v, t.query, None);
      assert Reply(map[], None, t.query) == Reply(v, None, t.query);
      assert IsResponse(v, t'.query, t'.phase.response);
      assert CurrentDuring(s.versions, t', Current(s));
    } else if e.ReleaseRead? {
      var v := s.versions[t.held];
      assert CurrentDuring(s.versions, t', t.held);
      if t.phase.Answered? {
        assert GoodReply(v, t', t'.phase.response);
      } else {
        assert t.phase.sent + t.phase.pending == t.phase.sent;
        assert GoodStream(v, t', t'.phase.sent);
      }
    } else {
      var v := s.versions[t.held];
      assert CurrentDuring(s.versions, t', t.held);
      assert GoodStream(v, t', t'.phase.sent + t.phase.pending);
      assert GoodStart(v, t', t'.phase.sent);
    }
  }

  /** All that one task's step can change. */
  ghost predicate OnlyTask(s: System, s': System, id: TaskId) {
    && s'.versions == s.versions && s'.store == s.store && s'.writing == s.writing && s'.loader == s.loader
    && id in s'.tasks && s'.tasks - {id} == s.tasks - {id}
    && s'.readers == (if Holds(s'.tasks[id].phase) then s.readers + {id} else s.readers - {id})
    && (s'.holders == s.holders || s'.holders == s.holders + [Current(s)])
    && (Holds(s'.tasks[id].phase) ==> !s.writing)
  }

  lemma TaskStepOnly(s: System, e: Event)
    requires Enabled(s, e) && !IsLoaderEvent(e)
    requires e.id in s.readers <==> e.id in s.tasks && Holds(s.tasks[e.id].phase)
    requires s.writing ==> s.readers == {}
    ensures OnlyTask(s, Apply(s, e), e.id)
  {
  }

  lemma TaskStepKeepsInv(s: System, s': System, id: TaskId)
    requires Inv(s) && OnlyTask(s, s', id) && TaskOk(s.versions, s'.tasks[id])
    ensures Inv(s')
  {
    forall other | other != id
      ensures other in s'.tasks <==> other in s.tasks
      ensures other in s.tasks ==> s'.tasks[other] == s.tasks[other]
    {
      assert other in s'.tasks - {id} <==> other in s.tasks - {id};
      assert other in s.tasks - {id} ==> (s'.tasks - {id})[other] == (s.tasks - {id})[other];
    }
  }

  lemma LoaderStepKeepsInv(s: System, e: Event)
    requires Inv(s) && Enabled(s, e) && IsLoaderEvent(e)
    ensures Inv(Apply(s, e))
  {
    if e.Swap? {
      var s' := Apply(s, e);
      forall id | id in s'.tasks ensures TaskOk(s'.versions, s'.tasks[id]) {
        assert id !in s.readers;
        TaskOkGrows(s.versions, s.tasks[id], s.loader.store);
      }
    }
  }

  lemma StepKeepsInv(s: System, e: Event)
    requires Inv(s) && Enabled(s, e)
    ensures Inv(Apply(s, e))
  {
    if IsLoaderEvent(e) {
      LoaderStepKeepsInv(s, e);
    } else {
      if IsFinish(e) {
        FinishTaskOk(s, e);
      } else {
        StepTaskOk(s, e);
      }
      TaskStepOnly(s, e);
      TaskStepKeepsInv(s, Apply(s, e), e.id);
    }
  }

  lemma {:induction false} RunKeepsInv(s: System, events: seq<Event>)
    requires Inv(s) && RunFrom(s, events).Some?
    ensures Inv(RunFrom(s, events).value)
    decreases |events|
  {
    if events != [] {
      StepKeepsInv(s, events[0]);
      RunKeepsInv(Apply(s, events[0]), events[1..]);
    }
  }

  // ----- results over whole runs -----

  predicate Done(p: Phase) {
    p.Replied? || p.Transferred? || p.Aborted?
  }

  /** What the task delivered is computed from version `k` alone, and that version was current
    * at some instant while the task ran. */
  ghost predicate ServedFrom(versions: seq<FlatStore>, t: Task, k: int) {
    && CurrentDuring(versions, t, k)
    && (t.phase.Replied? ==> GoodReply(versions[k], t, t.phase.response))
    && (t.phase.Transferred? ==> GoodStream(versions[k], t, t.phase.sent))
    && (t.phase.Aborted? ==> GoodStart(versions[k], t, t.phase.sent))
  }

  /** Every response, every complete zone transfer and what was sent of every broken one is
    * computed from one version of the store, current at some instant while its task ran. */
  lemma SingleVersion(store: FlatStore, events: seq<Event>, id: TaskId)
    requires RunFrom(Init(store), events).Some? && id in RunFrom(Init(store), events).value.tasks
    ensures var s := RunFrom(Init(store), events).value;
            Done(s.tasks[id].phase) ==> exists k :: ServedFrom(s.versions, s.tasks[id], k)
  {
    InitOk(store);
    RunKeepsInv(Init(store), events);
    var s := RunFrom(Init(store), events).value;
    var t := s.tasks[id];
    assert TaskOk(s.versions, t);
    if t.phase.Replied? {
      var k :| CurrentDuring(s.versions, t, k) && GoodReply(s.versions[k], t, t.phase.response);
      assert ServedFrom(s.versions, t, k);
    } else if t.phase.Transferred? {
      var k :| CurrentDuring(s.versions, t, k) && GoodStream(s.versions[k], t, t.phase.sent);
      assert ServedFrom(s.versions, t, k);
    } else if t.phase.Aborted? {
      var k :| CurrentDuring(s.versions, t, k) && GoodStart(s.versions[k], t, t.phase.sent);
      assert ServedFrom(s.versions, t, k);
    }
  }

  /** Successive lock holders never see versions go backwards, and nobody reads during a swap. */
  lemma NeverBackwards(store: FlatStore, events: seq<Event>)
    requires RunFrom(Init(store), events).Some?
    ensures var s := RunFrom(Init(store), events).value;
            && (forall i, j :: 0 <= i < j < |s.holders| ==> s.holders[i] <= s.holders[j])
            && (s.writing ==> forall id :: id in s.tasks ==> !Holds(s.tasks[id].phase))
  {
    InitOk(store);
    RunKeepsInv(Init(store), events);
  }

  /** A run only adds versions, leaves finished tasks alone and gives new tasks later births. */
  ghost predicate Later(s: System, s': System) {
    && s.versions <= s'.versions
    && (forall id :: id in s.tasks ==> id in s'.tasks)
    && (forall id :: id in s.tasks && Done(s.tasks[id].phase) ==> s'.tasks[id] == s.tasks[id])
    && (forall id :: id in s'.tasks && id !in s.tasks ==> s'.tasks[id].born >= Current(s))
    && (forall id :: id in s.tasks ==> s'.tasks[id].born == s.tasks[id].born)
  }

  lemma LoaderStepIsLater(s: System, e: Event)
    requires Enabled(s, e) && IsLoaderEvent(e)
    ensures Later(s, Apply(s, e))
  {
    assert Apply(s, e).tasks == s.tasks;
  }

  lemma TaskStepIsLater(s: System, e: Event)
    requires Enabled(s, e) && !IsLoaderEvent(e)
    ensures Later(s, Apply(s, e))
  {
    var t := Apply(s, e).tasks[e.id];
    assert Apply(s, e).versions == s.versions && Apply(s, e).tasks == s.tasks[e.id := t];
    assert e.id in s.tasks ==> !Done(s.tasks[e.id].phase) && t.born == s.tasks[e.id].born;
    assert e.id !in s.tasks ==> t.born == Current(s);
  }

  lemma {:induction false} RunIsLater(s: System, events: seq<Event>)
    requires RunFrom(s, events).Some?
    ensures Later(s, RunFrom(s, events).value)
    decreases |events|
  {
    if events != [] {
      if IsLoaderEvent(events[0]) {
        LoaderStepIsLater(s, events[0]);
      } else {
        TaskStepIsLater(s, events[0]);
      }
      RunIsLater(Apply(s, events[0]), events[1..]);
    }
  }

  /** Reads are monotonic in real time: a task that starts after another has finished is served
    * from the same version or a later one, however many reloads come between. */
  lemma MonotonicReads(store: FlatStore, first: seq<Event>, then_: seq<Event>, i: TaskId, j: TaskId)
    requires RunFrom(Init(store), first).Some?
    requires var mid := RunFrom(Init(store), first).value;
             && i in mid.tasks && Done(mid.tasks[i].phase) && j !in mid.tasks
             && RunFrom(mid, then_).Some?
             && j in RunFrom(mid, then_).value.tasks && Done(RunFrom(mid, then_).value.tasks[j].phase)
    ensures var mid := RunFrom(Init(store), first).value;
            var end := RunFrom(mid, then_).value;
            exists ki, kj ::
              ki <= kj && ServedFrom(end.versions, mid.tasks[i], ki) && ServedFrom(end.versions, end.tasks[j], kj)
  {
    var mid := RunFrom(Init(store), first).value;
    var end := RunFrom(mid, then_).value;
    SingleVersion(store, first, i);
    var ki :| ServedFrom(mid.versions, mid.tasks[i], ki);
    RunIsLater(mid, then_);
    assert end.versions[ki] == mid.versions[ki];
    assert ServedFrom(end.versions, mid.tasks[i], ki);
    RunConcat(Init(store), first, then_);
    SingleVersion(store, first + then_, j);
    var kj :| ServedFrom(end.versions, end.tasks[j], kj);
    assert ki <= kj;
  }

  lemma InitOk(store: FlatStore)
    ensures Inv(Init(store))
  {
  }

  lemma {:induction false} RunConcat(s: System, a: seq<Event>, b: seq<Event>)
    ensures RunFrom(s, a + b) ==
            match RunFrom(s, a) case None => None case Some(mid) => RunFrom(mid, b)
    decreases |a|
  {
    if a == [] {
      assert a + b == b;
    } else {
      assert (a + b)[1..] == a[1..] + b;
      if Enabled(s, a[0]) {
        RunConcat(Apply(s, a[0]), a[1..], b);
      }
    }
  }

  /** Tasks do not see what the loader is doing outside the lock. */
  lemma {:induction false} LoaderUnseen(s: System, events: seq<Event>, l: Loader)
    requires forall e :: e in events ==> !IsLoaderEvent(e)
    ensures RunFrom(s.(loader := l), events) ==
            match RunFrom(s, events) case None => None case Some(end) => Some(end.(loader := l))
    ensures RunFrom(s, events).Some? ==> RunFrom(s, events).value.loader == s.loader
    decreases |events|
  {
    if events != [] {
      var e := events[0];
      assert !IsLoaderEvent(e);
      assert Enabled(s.(loader := l), e) == Enabled(s, e);
      if Enabled(s, e) {
        assert Apply(s.(loader := l), e) == Apply(s, e).(loader := l);
        LoaderUnseen(Apply(s, e), events[1..], l);
      }
    }
  }

  /** A reload that fails, at whatever length and interleaved with whatever tasks, leaves no
    * trace: the run without it is possible and ends in the identical state. */
  lemma FailedReloadInvisible(s: System, during: seq<Event>, later: seq<Event>)
    requires s.loader == Idle
    requires forall e :: e in during ==> !IsLoaderEvent(e)
    ensures RunFrom(s, [Sighup] + during + [LoadFailed] + later) == RunFrom(s, during + later)
  {
    var loading := s.(loader := Loading);
    assert [Sighup] + during + [LoadFailed] + later == [Sighup] + (during + ([LoadFailed] + later));
    assert ([Sighup] + (during + ([LoadFailed] + later)))[1..] == during + ([LoadFailed] + later);
    RunConcat(loading, during, [LoadFailed] + later);
    RunConcat(s, during, later);
    LoaderUnseen(s, during, Loading);
    if RunFrom(s, during).Some? {
      var mid := RunFrom(s, during).value;
      assert ([LoadFailed] + later)[1..] == later;
      assert Apply(mid.(loader := Loading), LoadFailed) == mid;
    }
  }

  // ----- what reloads install -----

  /** The store that was loaded last, by the events alone. */
  function LastLoaded(events: seq<Event>): Option<FlatStore> {
    if events == [] then None
    else
      var last := events[|events| - 1];
      if last.Loaded? then Some(last.store) else LastLoaded(events[..|events| - 1])
  }

  /** The stores whose swap has come, in order, by the events alone. */
  function Installed(events: seq<Event>): seq<FlatStore> {
    if events == [] then []
    else
      var init := events[..|events| - 1];
      Installed(init)
      + if events[|events| - 1].Swap? && LastLoaded(init).Some? then [LastLoaded(init).value] else []
  }

  lemma {:induction false} RunSnoc(s: System, events: seq<Event>)
    requires events != [] && RunFrom(s, events).Some?
    ensures var init, last := events[..|events| - 1], events[|events| - 1];
            && RunFrom(s, init).Some? && Enabled(RunFrom(s, init).value, last)
            && RunFrom(s, events).value == Apply(RunFrom(s, init).value, last)
  {
    var init, last := events[..|events| - 1], events[|events| - 1];
    assert events == init + [last];
    RunConcat(s, init, [last]);
    assert [last][1..] == [];
  }

  ghost predicate LoadsOk(s: System, store: FlatStore, installed: seq<FlatStore>, loaded: Option<FlatStore>) {
    && s.versions == [store] + installed
    && s.store == s.versions[|s.versions| - 1]
    && (s.loader.Ready? || s.loader.Swapping? ==> loaded == Some(s.loader.store))
  }

  /** The versions of a run are the first store and then the loaded stores as they were swapped
    * in; the store in use is the last of them. Nothing else ever changes it. */
  lemma {:induction false} VersionsAreLoads(store: FlatStore, events: seq<Event>)
    requires RunFrom(Init(store), events).Some?
    ensures LoadsOk(RunFrom(Init(store), events).value, store, Installed(events), LastLoaded(events))
  {
    if events != [] {
      RunSnoc(Init(store), events);
      var init := events[..|events| - 1];
      VersionsAreLoads(store, init);
      LoadsStep(RunFrom(Init(store), init).value, events[|events| - 1], store, Installed(init), LastLoaded(init));
    }
  }

  lemma LoadsStep(s: System, e: Event, store: FlatStore, installed: seq<FlatStore>, loaded: Option<FlatStore>)
    requires Enabled(s, e) && LoadsOk(s, store, installed, loaded)
    ensures LoadsOk(Apply(s, e), store,
                    installed + (if e.Swap? && loaded.Some? then [loaded.value] else []),
                    if e.Loaded? then Some(e.store) else loaded)
  {
    if !e.Swap? {
      assert installed + [] == installed;
    }
  }

  /** A task spawned after reloads have come is served from the store that the last of them loaded
    * or from one loaded later: never again from an older one. */
  lemma ServedAfterReload(store: FlatStore, first: seq<Event>, then_: seq<Event>, id: TaskId)
    requires RunFrom(Init(store), first + then_).Some? && RunFrom(Init(store), first).Some?
    requires id !in RunFrom(Init(store), first).value.tasks
    requires var end := RunFrom(Init(store), first + then_).value;
             id in end.tasks && Done(end.tasks[id].phase)
    ensures var end := RunFrom(Init(store), first + then_).value;
            exists k :: |Installed(first)| <= k
                        && ServedFrom([store] + Installed(first + then_), end.tasks[id], k)
  {
    var mid := RunFrom(Init(store), first).value;
    RunConcat(Init(store), first, then_);
    var end := RunFrom(Init(store), first + then_).value;
    RunIsLater(mid, then_);
    VersionsAreLoads(store, first);
    VersionsAreLoads(store, first + then_);
    SingleVersion(store, first + then_, id);
    var k :| ServedFrom(end.versions, end.tasks[id], k);
    assert |Installed(first)| <= k;
  }

  // ----- what can happen -----

  lemma Steps(s: System, e: Event, events: seq<Event>)
    requires Enabled(s, e)
    ensures RunFrom(s, [e] + events) == RunFrom(Apply(s, e), events)
  {
    assert ([e] + events)[1..] == events;
  }

  /** Whenever no task reads and no reload is under way, a reload can be carried through; it
    * changes the store to the loaded one and leaves no lock behind. */
  lemma ReloadPossible(s: System, fresh_: FlatStore)
    requires s.loader == Idle && s.readers == {} && !s.writing
    ensures var end := RunFrom(s, [Sighup] + ([Loaded(fresh_)] + ([AcquireWrite] + ([Swap] + ([ReleaseWrite] + [])))));
            && end.Some?
            && end.value.store == fresh_ && end.value.versions == s.versions + [fresh_]
            && end.value.loader == Idle && !end.value.writing
            && end.value.tasks == s.tasks && end.value.readers == {}
  {
    var e5 := [ReleaseWrite] + [];
    var e4 := [Swap] + e5;
    var e3 := [AcquireWrite] + e4;
    var e2 := [Loaded(fresh_)] + e3;
    Steps(s, Sighup, e2);
    var s1 := Apply(s, Sighup);
    Steps(s1, Loaded(fresh_), e3);
    var s2 := Apply(s1, Loaded(fresh_));
    Steps(s2, AcquireWrite, e4);
    var s3 := Apply(s2, AcquireWrite);
    Steps(s3, Swap, e5);
    var s4 := Apply(s3, Swap);
    Steps(s4, ReleaseWrite, []);
  }

  /** Unless a swap is under way, a task can be spawned and get the lock. */
  lemma ReadPossible(s: System, id: TaskId, query: Message)
    requires !s.writing && id !in s.tasks && NeedsZone(query)
    ensures var end := RunFrom(s, [Spawn(id, query, false)] + ([AcquireRead(id)] + []));
            && end.Some? && end.value.store == s.store && end.value.readers == s.readers + {id}
            && id in end.value.tasks && end.value.tasks[id].phase == Reading
            && end.value.tasks[id].query == query && !end.value.tasks[id].transfer
  {
    Steps(s, Spawn(id, query, false), [AcquireRead(id)] + []);
    Steps(Apply(s, Spawn(id, query, false)), AcquireRead(id), []);
  }

  /** A reading task can be answered from the current store with any zone that the store allows,
    * and leaves no lock behind. */
  lemma AnswerPossible(s: System, id: TaskId, choice: Option<Name>)
    requires id in s.tasks && s.tasks[id].phase == Reading && !s.tasks[id].transfer
    requires NeedsZone(s.tasks[id].query) && Allows(s.store, s.tasks[id].query, choice)
    ensures var end := RunFrom(s, [FindZone(id, choice)] + ([BuildAnswer(id)] + ([ReleaseRead(id)] + [])));
            && end.Some? && end.value.store == s.store && end.value.readers == s.readers - {id}
            && id in end.value.tasks
            && end.value.tasks[id].phase == Replied(Reply(s.store, choice, s.tasks[id].query))
  {
    var e3 := [ReleaseRead(id)] + [];
    var e2 := [BuildAnswer(id)] + e3;
    Steps(s, FindZone(id, choice), e2);
    var s1 := Apply(s, FindZone(id, choice));
    Steps(s1, BuildAnswer(id), e3);
    Steps(Apply(s1, BuildAnswer(id)), ReleaseRead(id), []);
  }

  /** A transfer that has collected its records can send them all and end, in order. */
  lemma {:induction false} TransferPossible(s: System, id: TaskId) returns (events: seq<Event>)
    requires id in s.tasks && s.tasks[id].phase.Streaming?
    ensures var p := s.tasks[id].phase;
            var end := RunFrom(s, events);
            end.Some? && id in end.value.tasks && end.value.tasks[id].phase == Transferred(p.sent + p.pending)
    decreases |s.tasks[id].phase.pending|
  {
    var p := s.tasks[id].phase;
    if p.pending == [] {
      events := [ReleaseRead(id)] + [];
      Steps(s, ReleaseRead(id), []);
      assert p.sent + p.pending == p.sent;
    } else {
      var rest := TransferPossible(Apply(s, SendRecord(id)), id);
      events := [SendRecord(id)] + rest;
      Steps(s, SendRecord(id), rest);
      assert p.sent + [p.pending[0]] + p.pending[1..] == p.sent + p.pending;
    }
  }
}
