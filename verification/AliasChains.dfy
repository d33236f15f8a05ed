/** What the answers of `process_query` make of alias chains (`src/protocol.rs`), compared with
  * following every alias to its end. */
module AliasChains {
  import opened Wrappers
  import opened Names
  import opened Records
  import opened RecordLog
  import opened FlatZones
  import opened Messages
  import opened Responses

  /** Which zone is asked for a name; `FindZone` for a given iteration order is such a function. */
  type Selector = Name -> Option<Name>

  /** The records of the zone that is asked for a name, or none. */
  function HomeLog(store: FlatStore, select: Selector, n: Name): seq<Record> {
    if select(n).Some? && select(n).value in store then store[select(n).value].log else []
  }

  /** Full alias resolution: every target is looked up as a query for it would be, wildcards and
    * the other zones of the store included; cut off after `hops` further aliases. */
  function Resolve(store: FlatStore, select: Selector, n: Name, t: RecordType, hops: nat): seq<Record>
    decreases hops, 0
  {
    var log := HomeLog(store, select, n);
    var direct := Owned(log, n, t);
    if direct != [] then direct
    else if hops == 0 then []
    else ResolveAll(Owned(log, n, CNAME), store, select, t, hops - 1)
  }

  function ResolveAll(aliases: seq<Record>, store: FlatStore, select: Selector, t: RecordType, hops: nat): seq<Record>
    decreases hops, 1 + |aliases|
  {
    if aliases == [] then []
    else
      var last := aliases[|aliases| - 1];
      ResolveAll(aliases[..|aliases| - 1], store, select, t, hops) + [last]
      + if last.rdata.Alias? then Resolve(store, select, last.rdata.target, t, hops) else []
  }

  /** The alias ends the chain where the chase looks: the zone at hand has at the target's exact
    * name what the target's own zone serves for it, and if that is nothing, no alias either. */
  predicate Final(r: Record, log: seq<Record>, store: FlatStore, select: Selector, t: RecordType) {
    r.rdata.Alias? ==>
      var n := r.rdata.target;
      var home := HomeLog(store, select, n);
      RRset(log, n, t) == Owned(home, n, t) && (Owned(home, n, t) == [] ==> Owned(home, n, CNAME) == [])
  }

  /** Within one zone this says that the target owns the type itself, or that a query for it finds
    * neither the type nor an alias, not even through a wildcard. */
  lemma FinalWithinZone(r: Record, log: seq<Record>, store: FlatStore, select: Selector, t: RecordType)
    requires r.rdata.Alias? && HomeLog(store, select, r.rdata.target) == log
    ensures var n := r.rdata.target;
            Final(r, log, store, select, t) <==>
            RRset(log, n, t) != [] || (Owned(log, n, t) == [] && Owned(log, n, CNAME) == [])
  {
    if RRset(log, r.rdata.target, t) != [] {
      OwnerExists(log, r.rdata.target, t);
    }
    OwnedFromLog(log, r.rdata.target, t);
  }

  /** The answer is the full resolution exactly when the name owns the type or each of its aliases
    * is final. The chase takes one hop, by exact name, in the same zone; the documentation
    * promises final targets. */
  lemma ChaseCompleteExact(store: FlatStore, select: Selector, q: Question, dnssecOk: bool, hops: nat)
    requires hops >= 2 && select(q.name).Some? && select(q.name).value in store
    ensures var z := store[select(q.name).value];
            var complete := Answers(z, q, dnssecOk) == Resolve(store, select, q.name, q.qtype, hops);
            && (Owned(z.log, q.name, q.qtype) != [] && !dnssecOk ==> complete)
            && (Owned(z.log, q.name, q.qtype) == [] ==>
                  (complete <==> forall r :: r in Owned(z.log, q.name, CNAME) ==>
                                   Final(r, z.log, store, select, q.qtype)))
  {
    var log := store[select(q.name).value].log;
    if Owned(log, q.name, q.qtype) == [] {
      var aliases := Owned(log, q.name, CNAME);
      if q.qtype != CNAME {
        OwnedFromLog(log, q.name, CNAME);
        ChaseExact(aliases, log, store, select, q.qtype, hops - 1);
      }
    }
  }

  function CountAliases(s: seq<Record>): nat {
    if s == [] then 0 else CountAliases(s[..|s| - 1]) + if s[|s| - 1].Type() == CNAME then 1 else 0
  }

  lemma {:induction false} CountAliasesConcat(a: seq<Record>, b: seq<Record>)
    ensures CountAliases(a + b) == CountAliases(a) + CountAliases(b)
  {
    if b == [] {
      assert a + b == a;
    } else {
      assert (a + b)[..|a + b| - 1] == a + b[..|b| - 1];
      CountAliasesConcat(a, b[..|b| - 1]);
    }
  }

  lemma {:induction false} NoAliases(s: seq<Record>)
    ensures CountAliases(s) == 0 <==> forall r :: r in s ==> r.Type() != CNAME
  {
    if s != [] {
      NoAliases(s[..|s| - 1]);
      assert s == s[..|s| - 1] + [s[|s| - 1]];
    }
  }

  lemma CountAliasesStep(a: seq<Record>, last: Record, x: seq<Record>)
    requires last.Type() == CNAME
    ensures CountAliases(a + [last] + x) == CountAliases(a) + 1 + CountAliases(x)
  {
    CountAliasesConcat(a + [last], x);
    assert (a + [last])[..|a|] == a;
  }

  /** Sequences split in one way at their last alias. */
  lemma SplitAtLast(a: seq<Record>, x: seq<Record>, b: seq<Record>, y: seq<Record>, last: Record)
    requires last.Type() == CNAME && CountAliases(x) == 0 && CountAliases(y) == 0
    requires a + [last] + x == b + [last] + y
    ensures a == b && x == y
  {
    if |a| < |b| {
      SplitEarlier(a, x, b, y, last);
      NoAliases(x);
    } else if |b| < |a| {
      SplitEarlier(b, y, a, x, last);
      NoAliases(y);
    } else {
      var s := a + [last] + x;
      assert s[..|a|] == a && (b + [last] + y)[..|b|] == b;
      assert s[|a| + 1..] == x && (b + [last] + y)[|b| + 1..] == y;
    }
  }

  lemma SplitEarlier<T>(a: seq<T>, x: seq<T>, b: seq<T>, y: seq<T>, last: T)
    requires a + [last] + x == b + [last] + y && |a| < |b|
    ensures last in x
  {
    assert (b + [last] + y)[|b|] == last && (a + [last] + x)[|b|] == x[|b| - |a| - 1];
  }

  lemma RRsetHasNoAliases(log: seq<Record>, n: Name, t: RecordType)
    requires t != CNAME
    ensures CountAliases(RRset(log, n, t)) == 0
  {
    RRsetMembers(log, n, t);
    NoAliases(RRset(log, n, t));
  }

  /** The chase adds no aliases beyond the given ones; full resolution has those and maybe more. */
  lemma {:induction false} ChaseCounts(
    aliases: seq<Record>, log: seq<Record>, store: FlatStore, select: Selector, t: RecordType, hops: nat)
    requires t != CNAME && forall r :: r in aliases ==> r.Type() == CNAME
    ensures CountAliases(Chase(aliases, log, t)) == |aliases|
    ensures CountAliases(ResolveAll(aliases, store, select, t, hops)) >= |aliases|
  {
    if aliases != [] {
      var init, last := aliases[..|aliases| - 1], aliases[|aliases| - 1];
      ChaseCounts(init, log, store, select, t, hops);
      CountAliasesStep(Chase(init, log, t), last, AtTarget(last, log, t));
      CountAliasesStep(ResolveAll(init, store, select, t, hops), last, Onward(last, store, select, t, hops));
      AtTargetHasNoAliases(last, log, t);
    }
  }

  /** What the chase adds after an alias. */
  function AtTarget(r: Record, log: seq<Record>, t: RecordType): seq<Record> {
    if r.rdata.Alias? then RRset(log, r.rdata.target, t) else []
  }

  /** What full resolution adds after an alias. */
  function Onward(r: Record, store: FlatStore, select: Selector, t: RecordType, hops: nat): seq<Record> {
    if r.rdata.Alias? then Resolve(store, select, r.rdata.target, t, hops) else []
  }

  lemma AtTargetHasNoAliases(r: Record, log: seq<Record>, t: RecordType)
    requires t != CNAME
    ensures CountAliases(AtTarget(r, log, t)) == 0
  {
    if r.rdata.Alias? {
      RRsetHasNoAliases(log, r.rdata.target, t);
    }
  }

  lemma HopExact(r: Record, log: seq<Record>, store: FlatStore, select: Selector, t: RecordType, hops: nat)
    requires t != CNAME && hops >= 1
    ensures AtTarget(r, log, t) == Onward(r, store, select, t, hops) <==> Final(r, log, store, select, t)
  {
    if r.rdata.Alias? {
      var n := r.rdata.target;
      RRsetHasNoAliases(log, n, t);
      ResolvesTo(RRset(log, n, t), store, select, n, t, hops);
    }
  }

  /** Records without an alias are the full resolution of a name exactly when it owns them, or is
    * served nothing at all. */
  lemma ResolvesTo(x: seq<Record>, store: FlatStore, select: Selector, n: Name, t: RecordType, hops: nat)
    requires t != CNAME && hops >= 1 && CountAliases(x) == 0
    ensures var home := HomeLog(store, select, n);
            x == Resolve(store, select, n, t, hops) <==>
            x == Owned(home, n, t) && (Owned(home, n, t) == [] ==> Owned(home, n, CNAME) == [])
  {
    if Owned(HomeLog(store, select, n), n, t) == [] {
      OnwardAliases(x, store, select, n, t, hops);
    }
  }

  lemma OnwardAliases(x: seq<Record>, store: FlatStore, select: Selector, n: Name, t: RecordType, hops: nat)
    requires t != CNAME && hops >= 1 && CountAliases(x) == 0
    requires Owned(HomeLog(store, select, n), n, t) == []
    ensures x == Resolve(store, select, n, t, hops)
            <==> x == [] && Owned(HomeLog(store, select, n), n, CNAME) == []
  {
    var next := Owned(HomeLog(store, select, n), n, CNAME);
    OwnedAliases(HomeLog(store, select, n), n);
    AllAliasesShow(next, store, select, t, hops - 1);
    AliasesTell(x, ResolveAll(next, store, select, t, hops - 1), |next|);
  }

  lemma OwnedAliases(log: seq<Record>, n: Name)
    ensures forall r :: r in Owned(log, n, CNAME) ==> r.Type() == CNAME
  {
    OwnedFromLog(log, n, CNAME);
  }

  lemma AllAliasesShow(aliases: seq<Record>, store: FlatStore, select: Selector, t: RecordType, hops: nat)
    requires t != CNAME && forall r :: r in aliases ==> r.Type() == CNAME
    ensures CountAliases(ResolveAll(aliases, store, select, t, hops)) >= |aliases|
    ensures aliases == [] ==> ResolveAll(aliases, store, select, t, hops) == []
  {
    ChaseCounts(aliases, [], store, select, t, hops);
  }

  lemma AliasesTell(x: seq<Record>, y: seq<Record>, k: nat)
    requires CountAliases(x) == 0 && CountAliases(y) >= k && (k == 0 ==> y == [])
    ensures x == y <==> x == [] && k == 0
  {
  }

  lemma {:induction false} ChaseExact(
    aliases: seq<Record>, log: seq<Record>, store: FlatStore, select: Selector, t: RecordType, hops: nat)
    requires t != CNAME && hops >= 1 && forall r :: r in aliases ==> r.Type() == CNAME
    ensures Chase(aliases, log, t) == ResolveAll(aliases, store, select, t, hops)
            <==> forall r :: r in aliases ==> Final(r, log, store, select, t)
  {
    if aliases != [] {
      var init, last := aliases[..|aliases| - 1], aliases[|aliases| - 1];
      assert aliases == init + [last];
      ChaseExact(init, log, store, select, t, hops);
      HopExact(last, log, store, select, t, hops);
      StepExact(init, last, log, store, select, t, hops);
    }
  }

  lemma StepExact(
    init: seq<Record>, last: Record, log: seq<Record>, store: FlatStore, select: Selector, t: RecordType, hops: nat)
    requires t != CNAME && last.Type() == CNAME && forall r :: r in init ==> r.Type() == CNAME
    ensures Chase(init + [last], log, t) == ResolveAll(init + [last], store, select, t, hops)
            <==> Chase(init, log, t) == ResolveAll(init, store, select, t, hops)
                 && AtTarget(last, log, t) == Onward(last, store, select, t, hops)
  {
    var a, b := Chase(init, log, t), ResolveAll(init, store, select, t, hops);
    var x, y := AtTarget(last, log, t), Onward(last, store, select, t, hops);
    assert (init + [last])[..|init|] == init;
    assert Chase(init + [last], log, t) == a + [last] + x;
    assert ResolveAll(init + [last], store, select, t, hops) == b + [last] + y;
    if a + [last] + x == b + [last] + y {
      ChaseCounts(init, log, store, select, t, hops);
      CountAliasesStep(a, last, x);
      CountAliasesStep(b, last, y);
      AtTargetHasNoAliases(last, log, t);
      SplitAtLast(a, x, b, y, last);
    }
  }

  // ----- three answers that stop short -----

  const ORIGIN: Name := ["z"]
  const PLAIN_SOA := SoaData(ORIGIN, ORIGIN, 1, 1, 1, 1, 1)
  const ADDRESS := Address(192, 0, 2, 1)

  /** A zone with an SOA and some records. */
  function ZoneWith(origin: Name, records: seq<Record>): FlatZone {
    FlatZone(origin, PLAIN_SOA, [Record(origin, 1, Authority(PLAIN_SOA))] + records)
  }

  lemma ZoneWithRRset(origin: Name, records: seq<Record>, n: Name, t: RecordType)
    requires t != SOA
    ensures RRset(ZoneWith(origin, records).log, n, t) == RRset(records, n, t)
  {
    var soa := Record(origin, 1, Authority(PLAIN_SOA));
    OneRecord(soa, n, t);
    RRsetConcat([soa], records, n, t);
  }

  lemma ZoneWithName(origin: Name, records: seq<Record>, n: Name)
    ensures HasName(ZoneWith(origin, records).log, n) <==> n == origin || HasName(records, n)
  {
    var log := ZoneWith(origin, records).log;
    if HasName(records, n) {
      var i :| 0 <= i < |records| && records[i].owner == n;
      assert log[i + 1].owner == n;
    }
    if n == origin {
      assert log[0].owner == n;
    }
    if i :| 0 <= i < |log| && log[i].owner == n {
      assert i == 0 || records[i - 1].owner == n;
    }
  }

  /** The answer for a name that owns one alias and nothing else. */
  lemma AliasAnswers(origin: Name, records: seq<Record>, alias: Record)
    requires alias.rdata.Alias? && alias in records
    requires RRset(records, alias.owner, A) == [] && RRset(records, alias.owner, CNAME) == [alias]
    requires RRset(records, alias.rdata.target, A) == []
    ensures var z, q := ZoneWith(origin, records), Question(alias.owner, A);
            Answers(z, q, false) == [alias] && ResponseCode(z, q) == NoError
  {
    var log := ZoneWith(origin, records).log;
    var i :| 0 <= i < |records| && records[i] == alias;
    assert HasName(records, alias.owner);
    ZoneWithName(origin, records, alias.owner);
    ZoneWithRRset(origin, records, alias.owner, A);
    ZoneWithRRset(origin, records, alias.owner, CNAME);
    ZoneWithRRset(origin, records, alias.rdata.target, A);
    ChaseOne(alias, log, A);
  }

  lemma ChaseOne(r: Record, log: seq<Record>, t: RecordType)
    ensures Chase([r], log, t) == [r] + AtTarget(r, log, t)
  {
    assert [r][..0] == [];
  }

  /** An alias of an alias: the answer ends at the first. */
  lemma ChaseStopsShort()
    ensures var a, b, c := ["a", "z"], ["b", "z"], ["c", "z"];
            var records := [Record(a, 1, Alias(b)), Record(b, 1, Alias(c)), Record(c, 1, ADDRESS)];
            Gives(map[ORIGIN := ZoneWith(ORIGIN, records)], Question(a, A), NoError, [records[0]])
  {
    var a, b, c := ["a", "z"], ["b", "z"], ["c", "z"];
    var records := [Record(a, 1, Alias(b)), Record(b, 1, Alias(c)), Record(c, 1, ADDRESS)];
    assert a[0] == "a" && b[0] == "b" && c[0] == "c";
    ThreeRecords(records, a, A);
    ThreeRecords(records, a, CNAME);
    ThreeRecords(records, b, A);
    AliasAnswers(ORIGIN, records, records[0]);
    assert IsSuffix(ORIGIN, a);
    OnlyZoneGives(ZoneWith(ORIGIN, records), Question(a, A));
  }

  /** A target that a wildcard serves: asked for itself it has an address, as a target none. */
  lemma ChaseMissesWildcard()
    ensures var a, target, star := ["a", "z"], ["x", "w", "z"], [STAR, "w", "z"];
            var records := [Record(a, 1, Alias(target)), Record(star, 1, ADDRESS)];
            var store := map[ORIGIN := ZoneWith(ORIGIN, records)];
            && Gives(store, Question(a, A), NoError, [records[0]])
            && Gives(store, Question(target, A), NoError, [records[1]])
  {
    var a: Name, target: Name, star: Name := ["a", "z"], ["x", "w", "z"], [STAR, "w", "z"];
    assert a[0] == "a" && target[0] == "x" && star[0] == STAR;
    assert IsSuffix(ORIGIN, a) && IsSuffix(ORIGIN, target);
    assert WildcardAt(target, 1) == star;
    MissesWildcard(Record(a, 1, Alias(target)), Record(star, 1, ADDRESS));
  }

  lemma MissesWildcard(alias: Record, star: Record)
    requires alias.rdata.Alias? && star.rdata == ADDRESS
    requires var target := alias.rdata.target;
             && IsSuffix(ORIGIN, alias.owner) && IsSuffix(ORIGIN, target) && |target| > 1
             && star.owner == WildcardAt(target, 1)
             && alias.owner != target && alias.owner != star.owner && star.owner != target
    ensures var store := map[ORIGIN := ZoneWith(ORIGIN, [alias, star])];
            && Gives(store, Question(alias.owner, A), NoError, [alias])
            && Gives(store, Question(alias.rdata.target, A), NoError, [star])
  {
    var target, records := alias.rdata.target, [alias, star];
    TwoRecords(records, alias.owner, A);
    TwoRecords(records, alias.owner, CNAME);
    TwoRecords(records, target, A);
    AliasAnswers(ORIGIN, records, alias);
    OnlyZoneGives(ZoneWith(ORIGIN, records), Question(alias.owner, A));
    WildcardAnswers(target, alias, star);
    OnlyZoneGives(ZoneWith(ORIGIN, records), Question(target, A));
  }

  lemma WildcardAnswers(target: Name, other: Record, star: Record)
    requires |target| > 1 && star.owner == WildcardAt(target, 1) && star.rdata == ADDRESS
    requires other.owner != target && other.owner != star.owner && star.owner != target
    ensures var z, q := ZoneWith(ORIGIN, [other, star]), Question(target, A);
            Answers(z, q, false) == [star] && ResponseCode(z, q) == NoError
  {
    var records := [other, star];
    TwoRecords(records, star.owner, A);
    ZoneWithRRset(ORIGIN, records, star.owner, A);
    ZoneWithName(ORIGIN, records, target);
    assert WildcardSet(ZoneWith(ORIGIN, records).log, target, A) == [star];
  }

  /** A target in another zone of the store: its zone has the address, the answer does not. */
  lemma ChaseStaysInZone()
    ensures var a, b := ["a"], ["b"];
            var x, y := Record(a, 1, Alias(b)), Record(b, 1, ADDRESS);
            var store := map[a := ZoneWith(a, [x]), b := ZoneWith(b, [y])];
            && Gives(store, Question(a, A), NoError, [x])
            && Gives(store, Question(b, A), NoError, [y])
  {
    assert ["a"][0] != ["b"][0];
    StaysInZone(["a"], ["b"], Record(["a"], 1, Alias(["b"])), Record(["b"], 1, ADDRESS));
  }

  lemma StaysInZone(a: Name, b: Name, x: Record, y: Record)
    requires a != b && x == Record(a, 1, Alias(b)) && y == Record(b, 1, ADDRESS)
    ensures var store := map[a := ZoneWith(a, [x]), b := ZoneWith(b, [y])];
            && Gives(store, Question(a, A), NoError, [x])
            && Gives(store, Question(b, A), NoError, [y])
  {
    var store := map[a := ZoneWith(a, [x]), b := ZoneWith(b, [y])];
    OneRecord(x, a, A);
    OneRecord(x, a, CNAME);
    OneRecord(x, b, A);
    AliasAnswers(a, [x], x);
    SelectedGives(store, a, Question(a, A));
    AddressAnswers(b, y);
    SelectedGives(store, b, Question(b, A));
  }

  lemma AddressAnswers(origin: Name, y: Record)
    requires y == Record(origin, 1, ADDRESS)
    ensures var z, q := ZoneWith(origin, [y]), Question(origin, A);
            Answers(z, q, false) == [y] && ResponseCode(z, q) == NoError
  {
    OneRecord(y, origin, A);
    ZoneWithName(origin, [y], origin);
    ZoneWithRRset(origin, [y], origin, A);
    DirectAnswers(ZoneWith(origin, [y]), Question(origin, A), [y]);
  }

  lemma DirectAnswers(z: FlatZone, q: Question, records: seq<Record>)
    requires HasName(z.log, q.name) && RRset(z.log, q.name, q.qtype) == records != []
    ensures Answers(z, q, false) == records && ResponseCode(z, q) == NoError
  {
  }
}
