/** The sliding-window rate limiter (`src/ratelimit.rs`).
  *
  * The limiter forgets lazily: a client's vector is pruned when the client calls, every vector
  * when a call finds the last cleanup more than a minute old. The ghost log forgets nothing, and
  * every decision is specified against it.
  */
module RateLimiting {
  type Instant = nat   // nanoseconds of a clock that never runs backwards
  type Address = nat   // an IPv4 or IPv6 address as a number

  const WINDOW: nat := 1_000_000_000
  const CLEANUP_INTERVAL: nat := 60_000_000_000

  datatype Admission = Admission(addr: Address, at: Instant)

  /** When an address was admitted, in log order. */
  function Times(log: seq<Admission>, addr: Address): seq<Instant> {
    if log == [] then []
    else
      var last := log[|log| - 1];
      Times(log[..|log| - 1], addr) + if last.addr == addr then [last.at] else []
  }

  /** `retain`: what is still inside the window that ends now. */
  function Retain(times: seq<Instant>, now: Instant): seq<Instant> {
    if times == [] then []
    else
      var last := times[|times| - 1];
      Retain(times[..|times| - 1], now) + if now < last + WINDOW then [last] else []
  }

  /** The promise: fewer than the limit were admitted in the window that ends now. */
  predicate Admits(log: seq<Admission>, addr: Address, now: Instant, maxQps: nat) {
    |Retain(Times(log, addr), now)| < maxQps
  }

  ghost predicate Ascending(times: seq<Instant>) {
    forall i, j :: 0 <= i < j < |times| ==> times[i] <= times[j]
  }

  lemma {:induction false} RetainAgain(times: seq<Instant>, earlier: Instant, now: Instant)
    requires earlier <= now
    ensures Retain(Retain(times, earlier), now) == Retain(times, now)
  {
    if times != [] {
      var init, last := times[..|times| - 1], times[|times| - 1];
      RetainAgain(init, earlier, now);
      if now < last + WINDOW {
        RetainSnoc(Retain(init, earlier), last, now);
      } else if earlier < last + WINDOW {
        RetainSnoc(Retain(init, earlier), last, now);
        assert Retain(init, now) + [] == Retain(init, now);
      } else {
        assert Retain(init, earlier) + [] == Retain(init, earlier);
      }
    }
  }

  lemma RetainSnoc(times: seq<Instant>, t: Instant, now: Instant)
    ensures Retain(times + [t], now) == Retain(times, now) + if now < t + WINDOW then [t] else []
  {
    assert (times + [t])[..|times|] == times;
  }

  lemma TimesSnoc(log: seq<Admission>, e: Admission, addr: Address)
    ensures Times(log + [e], addr) == Times(log, addr) + if e.addr == addr then [e.at] else []
  {
    assert (log + [e])[..|log|] == log;
  }

  lemma {:induction false} RetainKeeps(times: seq<Instant>, now: Instant)
    ensures |Retain(times, now)| <= |times|
    ensures forall t :: t in Retain(times, now) ==> t in times
    ensures Ascending(times) ==> Ascending(Retain(times, now))
  {
    if times != [] {
      var init, last := times[..|times| - 1], times[|times| - 1];
      RetainKeeps(init, now);
      if Ascending(times) {
        assert Ascending(init);
        forall t | t in init ensures t <= last {
          var k :| 0 <= k < |init| && init[k] == t;
          assert times[k] <= times[|times| - 1];
        }
        AscendingSnoc(Retain(init, now), last);
      }
    }
  }

  lemma AscendingSnoc(times: seq<Instant>, t: Instant)
    requires Ascending(times) && forall x :: x in times ==> x <= t
    ensures Ascending(times + [t])
  {
    forall i | 0 <= i < |times| ensures times[i] <= t {
      assert times[i] in times;
    }
  }

  /** The entries of the log that count against a call now, by position. */
  ghost function Counted(log: seq<Admission>, addr: Address, now: Instant): set<nat> {
    set i: nat | i < |log| && log[i].addr == addr && now < log[i].at + WINDOW
  }

  /** A call is admitted exactly when fewer log entries than the limit have its address and lie
    * less than one window back. */
  lemma {:induction false} AdmitsExact(log: seq<Admission>, addr: Address, now: Instant, maxQps: nat)
    ensures |Retain(Times(log, addr), now)| == |Counted(log, addr, now)|
    ensures Admits(log, addr, now, maxQps) <==> |Counted(log, addr, now)| < maxQps
  {
    if log != [] {
      var init, last := log[..|log| - 1], log[|log| - 1];
      AdmitsExact(init, addr, now, maxQps);
      assert log == init + [last];
      TimesSnoc(init, last, addr);
      RetainSnoc(Times(init, addr), last.at, now);
      assert Times(init, addr) + [] == Times(init, addr);
      if last.addr == addr && now < last.at + WINDOW {
        assert Counted(log, addr, now) == Counted(init, addr, now) + {|init|};
      } else {
        assert Counted(log, addr, now) == Counted(init, addr, now);
      }
    } else {
      assert Counted(log, addr, now) == {};
    }
  }

  type Clients = map<Address, seq<Instant>>

  function Stored(clients: Clients, addr: Address): seq<Instant> {
    if addr in clients then clients[addr] else []
  }

  /** Stored and remembered admissions agree on the window that ends now, hence on all later
    * ones; each stored vector is sorted, from the past, and no longer than the limit. */
  ghost predicate Faithful(clients: Clients, log: seq<Admission>, now: Instant, maxQps: nat) {
    && (forall a :: Retain(Stored(clients, a), now) == Retain(Times(log, a), now))
    && (forall a :: Tidy(Stored(clients, a), now, maxQps))
  }

  ghost predicate Tidy(times: seq<Instant>, now: Instant, maxQps: nat) {
    |times| <= maxQps && Ascending(times) && forall t :: t in times ==> t <= now
  }

  lemma StillFaithful(clients: Clients, log: seq<Admission>, earlier: Instant, now: Instant, maxQps: nat)
    requires Faithful(clients, log, earlier, maxQps) && earlier <= now
    ensures Faithful(clients, log, now, maxQps)
  {
    forall a ensures Retain(Stored(clients, a), now) == Retain(Times(log, a), now) {
      RetainAgain(Stored(clients, a), earlier, now);
      RetainAgain(Times(log, a), earlier, now);
    }
    forall a ensures Tidy(Stored(clients, a), now, maxQps) {
      assert Tidy(Stored(clients, a), earlier, maxQps);
    }
  }

  /** Pruning any choice of clients is invisible. */
  lemma PruneFaithful(clients: Clients, pruned: Clients, log: seq<Admission>, now: Instant, maxQps: nat)
    requires Faithful(clients, log, now, maxQps)
    requires forall a :: Stored(pruned, a) == Stored(clients, a)
                         || Stored(pruned, a) == Retain(Stored(clients, a), now)
    ensures Faithful(pruned, log, now, maxQps)
  {
    forall a
      ensures Retain(Stored(pruned, a), now) == Retain(Times(log, a), now)
      ensures Tidy(Stored(pruned, a), now, maxQps)
    {
      RetainAgain(Stored(clients, a), now, now);
      RetainKeeps(Stored(clients, a), now);
      assert Tidy(Stored(clients, a), now, maxQps);
    }
  }

  lemma RecordFaithful(
    clients: Clients, log: seq<Admission>, addr: Address, now: Instant, maxQps: nat)
    requires Faithful(clients, log, now, maxQps) && |Stored(clients, addr)| < maxQps
    ensures Faithful(clients[addr := Stored(clients, addr) + [now]], log + [Admission(addr, now)], now, maxQps)
  {
    var times := Stored(clients, addr);
    var after := clients[addr := times + [now]];
    forall a ensures Tidy(Stored(after, a), now, maxQps) {
      assert Tidy(Stored(clients, a), now, maxQps);
      if a == addr {
        AscendingSnoc(times, now);
      }
    }
    forall a
      ensures Retain(Stored(after, a), now) == Retain(Times(log + [Admission(addr, now)], a), now)
    {
      TimesSnoc(log, Admission(addr, now), a);
      assert Retain(Stored(clients, a), now) == Retain(Times(log, a), now);
      if a == addr {
        RetainSnoc(times, now, now);
        RetainSnoc(Times(log, addr), now, now);
      } else {
        assert Times(log, a) + [] == Times(log, a);
      }
    }
  }

  /** One call, after any cleanup: the pruned vector decides as the whole log does. */
  lemma CallFaithful(
    clients: Clients, log: seq<Admission>, addr: Address, earlier: Instant, now: Instant, maxQps: nat)
    requires Faithful(clients, log, earlier, maxQps) && earlier <= now
    ensures var queries := Retain(Stored(clients, addr), now);
            && Faithful(clients[addr := queries], log, now, maxQps)
            && (|queries| < maxQps <==> Admits(log, addr, now, maxQps))
            && (|queries| < maxQps ==>
                  Faithful(clients[addr := queries + [now]], log + [Admission(addr, now)], now, maxQps))
  {
    var queries := Retain(Stored(clients, addr), now);
    StillFaithful(clients, log, earlier, now, maxQps);
    PruneFaithful(clients, clients[addr := queries], log, now, maxQps);
    if |queries| < maxQps {
      RecordFaithful(clients[addr := queries], log, addr, now, maxQps);
      assert clients[addr := queries][addr := queries + [now]] == clients[addr := queries + [now]];
    }
  }

  class RateLimiter {
    const maxQps: nat
    var clients: Clients
    var lastCleanup: Instant
    ghost var log: seq<Admission>   // every admitted query, never pruned
    ghost var clock: Instant        // the latest reading

    ghost predicate Valid()
      reads this
    {
      lastCleanup <= clock && Faithful(clients, log, clock, maxQps)
    }

    constructor (maxQps: nat, now: Instant)
      ensures Valid() && this.maxQps == maxQps && log == [] && clock == now
    {
      this.maxQps := maxQps;
      clients := map[];
      lastCleanup := now;
      log := [];
      clock := now;
    }

    /** The four readings are those of lines 40, 77, 42 and 45, taken under the lock. */
    method CheckRateLimit(
      addr: Address, atEntry: Instant, atCleanup: Instant, afterCleanup: Instant, now: Instant)
      returns (admitted: bool)
      requires Valid() && clock <= atEntry <= atCleanup <= afterCleanup <= now
      modifies this
      ensures Valid() && clock == now
      ensures admitted <==> Admits(old(log), addr, now, maxQps)
      ensures log == if admitted then old(log) + [Admission(addr, now)] else old(log)
      ensures var due := atEntry - old(lastCleanup) > 60_000_000_000;
              && lastCleanup == (if due then afterCleanup else old(lastCleanup))
              && (forall a :: a != addr ==>
                    if due then
                      && Stored(clients, a) == Retain(Stored(old(clients), a), atCleanup)
                      && (a in clients <==> Stored(clients, a) != [])
                    else Stored(clients, a) == Stored(old(clients), a) && (a in clients <==> a in old(clients)))
      ensures addr in clients
    {
      if atEntry - lastCleanup > CLEANUP_INTERVAL {
        Cleanup(atCleanup);
        lastCleanup := afterCleanup;
      }
      CallFaithful(clients, log, addr, clock, now, maxQps);
      clock := now;
      var queries := Retain(Stored(clients, addr), now);
      if |queries| >= maxQps {
        clients := clients[addr := queries];
        return false;
      }
      clients := clients[addr := queries + [now]];
      log := log + [Admission(addr, now)];
      return true;
    }

    /** Prune every client and forget those with nothing left. */
    method Cleanup(now: Instant)
      requires Valid() && clock <= now
      modifies this`clients, this`clock
      ensures Valid() && clock == now
      ensures forall a :: Stored(clients, a) == Retain(Stored(old(clients), a), now)
      ensures forall a :: a in clients <==> Stored(clients, a) != []
    {
      StillFaithful(clients, log, clock, now, maxQps);
      var kept := map a | a in clients && Retain(clients[a], now) != [] :: Retain(clients[a], now);
      PruneFaithful(clients, kept, log, now, maxQps);
      clients := kept;
      clock := now;
    }
  }

  // ----- whole runs -----

  datatype Call = Call(
    addr: Address, atEntry: Instant, atCleanup: Instant, afterCleanup: Instant, now: Instant)

  /** The lock serialises the calls, so the readings of a run never decrease. */
  predicate Clocked(calls: seq<Call>, start: Instant) {
    && (forall c :: c in calls ==> start <= c.atEntry <= c.atCleanup <= c.afterCleanup <= c.now)
    && (forall i, j :: 0 <= i < j < |calls| ==> calls[i].now <= calls[j].atEntry)
  }

  /** The admissions of a limiter that never forgets. */
  function LogAfter(calls: seq<Call>, maxQps: nat): seq<Admission> {
    if calls == [] then []
    else
      var before := LogAfter(calls[..|calls| - 1], maxQps);
      var c := calls[|calls| - 1];
      if Admits(before, c.addr, c.now, maxQps) then before + [Admission(c.addr, c.now)] else before
  }

  /** Its decisions, call by call. */
  function Decisions(calls: seq<Call>, maxQps: nat): seq<bool> {
    if calls == [] then []
    else
      var before := calls[..|calls| - 1];
      var c := calls[|calls| - 1];
      Decisions(before, maxQps) + [Admits(LogAfter(before, maxQps), c.addr, c.now, maxQps)]
  }

  /** Any run of the real limiter decides as the one that never forgets. */
  method Replay(maxQps: nat, start: Instant, calls: seq<Call>) returns (decisions: seq<bool>)
    requires Clocked(calls, start)
    ensures decisions == Decisions(calls, maxQps)
  {
    var limiter := new RateLimiter(maxQps, start);
    decisions := [];
    for i := 0 to |calls|
      invariant fresh(limiter) && limiter.Valid() && limiter.maxQps == maxQps
      invariant limiter.clock == if i == 0 then start else calls[i - 1].now
      invariant limiter.log == LogAfter(calls[..i], maxQps)
      invariant decisions == Decisions(calls[..i], maxQps)
    {
      var c := calls[i];
      assert calls[..i + 1][..i] == calls[..i];
      assert i > 0 ==> calls[i - 1].now <= c.atEntry;
      var admitted := limiter.CheckRateLimit(c.addr, c.atEntry, c.atCleanup, c.afterCleanup, c.now);
      decisions := decisions + [admitted];
    }
    assert calls[..|calls|] == calls;
  }

  /** The admissions that fall in the half-open interval one window long from `from`. */
  function During(times: seq<Instant>, from: Instant): seq<Instant> {
    if times == [] then []
    else
      var last := times[|times| - 1];
      During(times[..|times| - 1], from) + if from <= last < from + WINDOW then [last] else []
  }

  lemma {:induction false} DuringFits(times: seq<Instant>, from: Instant, now: Instant)
    requires now < from + WINDOW
    ensures |During(times, from)| <= |Retain(times, now)|
  {
    if times != [] {
      DuringFits(times[..|times| - 1], from, now);
    }
  }

  /** Safety: over a whole run, no interval one window long sees more than the limit. */
  lemma {:induction false} NeverOverLimit(calls: seq<Call>, maxQps: nat, addr: Address, from: Instant)
    ensures |During(Times(LogAfter(calls, maxQps), addr), from)| <= maxQps
  {
    if calls != [] {
      var before := LogAfter(calls[..|calls| - 1], maxQps);
      var c := calls[|calls| - 1];
      NeverOverLimit(calls[..|calls| - 1], maxQps, addr, from);
      if Admits(before, c.addr, c.now, maxQps) {
        TimesSnoc(before, Admission(c.addr, c.now), addr);
        var times := Times(before, addr);
        assert (times + [c.now])[..|times|] == times;
        assert times + [] == times;
        if c.now < from + WINDOW && c.addr == addr {
          DuringFits(times, from, c.now);
        }
      }
    }
  }

  /** The run with every other address's calls deleted. */
  function CallsOf(calls: seq<Call>, addr: Address): seq<Call> {
    if calls == [] then []
    else
      var last := calls[|calls| - 1];
      CallsOf(calls[..|calls| - 1], addr) + if last.addr == addr then [last] else []
  }

  /** Which of a run's decisions were given to one address. */
  function DecisionsFor(calls: seq<Call>, decisions: seq<bool>, addr: Address): seq<bool>
    requires |decisions| == |calls|
  {
    if calls == [] then []
    else
      var k := |calls| - 1;
      DecisionsFor(calls[..k], decisions[..k], addr) + if calls[k].addr == addr then [decisions[k]] else []
  }

  lemma {:induction false} OneDecisionPerCall(calls: seq<Call>, maxQps: nat)
    ensures |Decisions(calls, maxQps)| == |calls|
  {
    if calls != [] {
      OneDecisionPerCall(calls[..|calls| - 1], maxQps);
    }
  }

  /** An address's own calls are a run of their own, so `Replay` speaks of them too. */
  lemma {:induction false} OwnRunClocked(calls: seq<Call>, start: Instant, addr: Address)
    requires Clocked(calls, start)
    ensures Clocked(CallsOf(calls, addr), start)
    ensures forall c :: c in CallsOf(calls, addr) <==> c in calls && c.addr == addr
  {
    if calls != [] {
      var k := |calls| - 1;
      var init, last := calls[..k], calls[k];
      assert calls == init + [last];
      OwnRunClocked(init, start, addr);
      var own := CallsOf(init, addr);
      forall i | 0 <= i < |own| ensures own[i].now <= last.atEntry {
        assert own[i] in init;
        var j :| 0 <= j < k && init[j] == own[i];
        assert calls[j].now <= calls[k].atEntry;
      }
    }
  }

  lemma {:induction false} IsolatedLog(calls: seq<Call>, maxQps: nat, addr: Address)
    ensures Times(LogAfter(calls, maxQps), addr) == Times(LogAfter(CallsOf(calls, addr), maxQps), addr)
  {
    if calls != [] {
      var init, c := calls[..|calls| - 1], calls[|calls| - 1];
      var own := CallsOf(init, addr);
      IsolatedLog(init, maxQps, addr);
      TimesSnoc(LogAfter(init, maxQps), Admission(c.addr, c.now), addr);
      assert own + [] == own;
      if c.addr == addr {
        assert (own + [c])[..|own|] == own;
        TimesSnoc(LogAfter(own, maxQps), Admission(c.addr, c.now), addr);
      }
    }
  }

  /** Isolation: other addresses, and the cleanups they trigger, change no decision of one. */
  lemma {:induction false} Isolated(calls: seq<Call>, maxQps: nat, addr: Address)
    ensures |Decisions(calls, maxQps)| == |calls|
    ensures DecisionsFor(calls, Decisions(calls, maxQps), addr) == Decisions(CallsOf(calls, addr), maxQps)
  {
    OneDecisionPerCall(calls, maxQps);
    if calls != [] {
      var init, c := calls[..|calls| - 1], calls[|calls| - 1];
      var own := CallsOf(init, addr);
      Isolated(init, maxQps, addr);
      IsolatedLog(init, maxQps, addr);
      assert Decisions(calls, maxQps)[..|init|] == Decisions(init, maxQps);
      if c.addr == addr {
        assert (own + [c])[..|own|] == own;
      } else {
        assert CallsOf(calls, addr) == own;
      }
    }
  }

  /** Isolation of the limiter itself: two of them, one run on all calls and one on a single
    * address's calls, agree on that address. */
  method ReplayIsolated(maxQps: nat, start: Instant, calls: seq<Call>, addr: Address)
    returns (mixed: seq<bool>, alone: seq<bool>)
    requires Clocked(calls, start)
    ensures |mixed| == |calls| && alone == DecisionsFor(calls, mixed, addr)
  {
    mixed := Replay(maxQps, start, calls);
    OwnRunClocked(calls, start, addr);
    alone := Replay(maxQps, start, CallsOf(calls, addr));
    Isolated(calls, maxQps, addr);
  }
}
