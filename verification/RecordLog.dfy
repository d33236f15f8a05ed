/** The flat view of a zone: the log of every record ever added, in order.
  *
  * Everything the index, the query processor and the zone transfer compute is specified here
  * or in terms of `RRset`, with no mention of nested maps.
  */
module RecordLog {
  import opened Names
  import opened Records

  /** The records of one owner and type, in the order they were added. */
  function RRset(log: seq<Record>, n: Name, t: RecordType): seq<Record> {
    if log == [] then []
    else
      var last := log[|log| - 1];
      RRset(log[..|log| - 1], n, t) + if last.Has(n, t) then [last] else []
  }

  predicate HasName(log: seq<Record>, n: Name) {
    exists i :: 0 <= i < |log| && log[i].owner == n
  }

  /** Two logs agree on every RRset: they may differ only in how RRsets are interleaved. */
  ghost predicate SameRRsets(a: seq<Record>, b: seq<Record>) {
    forall n: Name, t: RecordType :: RRset(a, n, t) == RRset(b, n, t)
  }

  lemma RRsetSnoc(log: seq<Record>, r: Record, n: Name, t: RecordType)
    ensures RRset(log + [r], n, t) == RRset(log, n, t) + if r.Has(n, t) then [r] else []
  {
    assert (log + [r])[..|log|] == log;
  }

  lemma {:induction false} RRsetConcat(a: seq<Record>, b: seq<Record>, n: Name, t: RecordType)
    ensures RRset(a + b, n, t) == RRset(a, n, t) + RRset(b, n, t)
  {
    if b == [] {
      assert a + b == a;
    } else {
      var init, last := b[..|b| - 1], b[|b| - 1];
      assert a + b == (a + init) + [last];
      RRsetConcat(a, init, n, t);
      RRsetSnoc(a + init, last, n, t);
    }
  }

  /** Exactly the matching records are in an RRset. */
  lemma {:induction false} RRsetMembers(log: seq<Record>, n: Name, t: RecordType)
    ensures forall r :: r in RRset(log, n, t) <==> r in log && r.Has(n, t)
  {
    if log != [] {
      RRsetMembers(log[..|log| - 1], n, t);
      assert log == log[..|log| - 1] + [log[|log| - 1]];
    }
  }

  /** Selecting from an RRset gives all of it or nothing. */
  lemma {:induction false} RRsetTwice(log: seq<Record>, m: Name, u: RecordType, n: Name, t: RecordType)
    ensures RRset(RRset(log, m, u), n, t) == if m == n && u == t then RRset(log, n, t) else []
  {
    if log != [] {
      var init, last := log[..|log| - 1], log[|log| - 1];
      RRsetTwice(init, m, u, n, t);
      if last.Has(m, u) {
        RRsetSnoc(RRset(init, m, u), last, n, t);
      } else {
        assert RRset(log, m, u) == RRset(init, m, u);
      }
    }
  }

  /** Some type that an existing name owns. */
  lemma OwnedType(log: seq<Record>, n: Name) returns (t: RecordType)
    requires HasName(log, n)
    ensures RRset(log, n, t) != []
  {
    var i :| 0 <= i < |log| && log[i].owner == n;
    t := log[i].Type();
    RRsetMembers(log, n, t);
    assert log[i] in RRset(log, n, t);
  }

  lemma OwnerExists(log: seq<Record>, n: Name, t: RecordType)
    requires RRset(log, n, t) != []
    ensures HasName(log, n)
  {
    RRsetMembers(log, n, t);
    var r := RRset(log, n, t)[0];
    assert r in RRset(log, n, t);
  }

  lemma SameRRsetsSameNames(a: seq<Record>, b: seq<Record>, n: Name)
    requires SameRRsets(a, b)
    ensures HasName(a, n) == HasName(b, n)
  {
    if HasName(a, n) {
      var t := OwnedType(a, n);
      OwnerExists(b, n, t);
    }
    if HasName(b, n) {
      var t := OwnedType(b, n);
      OwnerExists(a, n, t);
    }
  }

  /** A log has as many copies of a record as the RRset the record belongs to. */
  lemma {:induction false} RRsetCounts(log: seq<Record>, r: Record)
    ensures multiset(log)[r] == multiset(RRset(log, r.owner, r.Type()))[r]
  {
    if log != [] {
      RRsetCounts(log[..|log| - 1], r);
      assert log == log[..|log| - 1] + [log[|log| - 1]];
    }
  }

  /** Logs with the same RRsets are permutations of one another. */
  lemma SameRRsetsPermute(a: seq<Record>, b: seq<Record>)
    requires SameRRsets(a, b)
    ensures multiset(a) == multiset(b)
  {
    forall r ensures multiset(a)[r] == multiset(b)[r] {
      RRsetCounts(a, r);
      RRsetCounts(b, r);
    }
  }

  lemma OneRecord(r: Record, n: Name, t: RecordType)
    ensures RRset([r], n, t) == if r.Has(n, t) then [r] else []
  {
    assert [r][..0] == [];
  }

  lemma TwoRecords(log: seq<Record>, n: Name, t: RecordType)
    requires |log| == 2
    ensures RRset(log, n, t) ==
            (if log[0].Has(n, t) then [log[0]] else []) + (if log[1].Has(n, t) then [log[1]] else [])
  {
    assert log == [log[0]] + [log[1]];
    RRsetSnoc([log[0]], log[1], n, t);
    OneRecord(log[0], n, t);
  }

  lemma ThreeRecords(log: seq<Record>, n: Name, t: RecordType)
    requires |log| == 3
    ensures RRset(log, n, t) ==
            (if log[0].Has(n, t) then [log[0]] else [])
            + (if log[1].Has(n, t) then [log[1]] else [])
            + (if log[2].Has(n, t) then [log[2]] else [])
  {
    TwoRecords(log[..2], n, t);
    assert log == log[..2] + [log[2]];
    RRsetSnoc(log[..2], log[2], n, t);
  }

  // ----- transfer order: by owner, then by type, each RRset in its log order -----

  predicate KeyLess(x: Record, y: Record) {
    NameLess(x.owner, y.owner) || (x.owner == y.owner && x.Type() < y.Type())
  }

  /** x may stand anywhere before y. */
  predicate KeyLeq(x: Record, y: Record) {
    !KeyLess(y, x)
  }

  predicate InOrder(s: seq<Record>) {
    forall i, j :: 0 <= i < j < |s| ==> KeyLeq(s[i], s[j])
  }

  /** The records a transfer sends between its two SOAs, said without saying how to sort. */
  ghost predicate IsTransfer(log: seq<Record>, middle: seq<Record>) {
    && InOrder(middle)
    && forall n: Name, t: RecordType ::
         RRset(middle, n, t) == if t == SOA then [] else RRset(log, n, t)
  }

  lemma KeyOrder(x: Record, y: Record, z: Record)
    ensures KeyLess(x, y) && KeyLess(y, z) ==> KeyLess(x, z)
    ensures KeyLeq(x, y) && KeyLess(y, z) ==> KeyLess(x, z)
    ensures KeyLess(x, y) && KeyLeq(y, z) ==> KeyLess(x, z)
    ensures KeyLeq(x, y) && KeyLeq(y, z) ==> KeyLeq(x, z)
    ensures !(KeyLess(x, y) && KeyLess(y, x))
    ensures !KeyLess(x, y) && !KeyLess(y, x) <==> x.Has(y.owner, y.Type())
  {
    NameLessTotal(x.owner, y.owner);
    NameLessTotal(y.owner, z.owner);
    NameLessTotal(x.owner, z.owner);
    if NameLess(x.owner, y.owner) && NameLess(y.owner, z.owner) {
      NameLessTransitive(x.owner, y.owner, z.owner);
    }
    if NameLess(z.owner, y.owner) && NameLess(y.owner, x.owner) {
      NameLessTransitive(z.owner, y.owner, x.owner);
    }
  }

  /** Insert after every record that does not have to come later. */
  function Insert(s: seq<Record>, r: Record): (result: seq<Record>)
    ensures |result| == |s| + 1
    ensures forall x :: x in result ==> x in s || x == r
  {
    if s == [] || KeyLeq(s[|s| - 1], r) then s + [r]
    else Insert(s[..|s| - 1], r) + [s[|s| - 1]]
  }

  /** The reference definition: a stable insertion sort of the non-SOA part of the log. */
  function Transfer(log: seq<Record>): seq<Record> {
    if log == [] then []
    else
      var last := log[|log| - 1];
      if last.Type() == SOA then Transfer(log[..|log| - 1])
      else Insert(Transfer(log[..|log| - 1]), last)
  }

  lemma {:induction false} InsertKeepsRRsets(s: seq<Record>, r: Record, n: Name, t: RecordType)
    ensures RRset(Insert(s, r), n, t) == RRset(s + [r], n, t)
  {
    if s != [] && !KeyLeq(s[|s| - 1], r) {
      var init, last := s[..|s| - 1], s[|s| - 1];
      InsertKeepsRRsets(init, r, n, t);
      RRsetSnoc(Insert(init, r), last, n, t);
      RRsetSnoc(init, r, n, t);
      RRsetSnoc(s, r, n, t);
      KeyOrder(r, last, last);
    }
  }

  lemma {:induction false} InsertKeepsOrder(s: seq<Record>, r: Record)
    requires InOrder(s)
    ensures InOrder(Insert(s, r))
  {
    if s != [] {
      var init, last := s[..|s| - 1], s[|s| - 1];
      if KeyLeq(last, r) {
        forall i | 0 <= i < |s| ensures KeyLeq(s[i], r) {
          KeyOrder(s[i], last, r);
          KeyOrder(last, last, last);
        }
      } else {
        InsertKeepsOrder(init, r);
        var rest := Insert(init, r);
        KeyOrder(r, last, r);
        forall i | 0 <= i < |rest| ensures KeyLeq(rest[i], last) {
          assert rest[i] in rest;
        }
      }
    }
  }

  /** The reference definition is a transfer of the log. */
  lemma {:induction false} TransferIsTransfer(log: seq<Record>)
    ensures IsTransfer(log, Transfer(log))
  {
    if log != [] {
      var init, last := log[..|log| - 1], log[|log| - 1];
      TransferIsTransfer(init);
      if last.Type() != SOA {
        InsertKeepsOrder(Transfer(init), last);
        forall n: Name, t: RecordType
          ensures RRset(Transfer(log), n, t) == if t == SOA then [] else RRset(log, n, t)
        {
          InsertKeepsRRsets(Transfer(init), last, n, t);
          RRsetSnoc(Transfer(init), last, n, t);
        }
      }
    }
  }

  /** Order and RRsets determine a sequence of records completely. */
  lemma {:induction false} OrderedUnique(a: seq<Record>, b: seq<Record>)
    requires InOrder(a) && InOrder(b) && SameRRsets(a, b)
    ensures a == b
    decreases |a|
  {
    SameRRsetsPermute(a, b);
    if a == [] {
      assert |multiset(b)| == 0;
    } else {
      assert |multiset(b)| == |a|;
      SameLast(a, b);
      OrderedUnique(a[..|a| - 1], b[..|b| - 1]);
    }
  }

  lemma SameLast(a: seq<Record>, b: seq<Record>)
    requires InOrder(a) && InOrder(b) && SameRRsets(a, b) && a != [] && b != []
    ensures SameRRsets(a[..|a| - 1], b[..|b| - 1])
    ensures a[|a| - 1] == b[|b| - 1]
  {
    LastKeysAgree(a, b);
    SameInit(a, b, a[|a| - 1].owner, a[|a| - 1].Type());
    var a', b' := a[..|a| - 1], b[..|b| - 1];
    forall n: Name, t: RecordType ensures RRset(a', n, t) == RRset(b', n, t) {
      SameInit(a, b, n, t);
    }
  }

  lemma SameInit(a: seq<Record>, b: seq<Record>, n: Name, t: RecordType)
    requires a != [] && b != [] && b[|b| - 1].Has(a[|a| - 1].owner, a[|a| - 1].Type())
    requires RRset(a, n, t) == RRset(b, n, t)
    ensures RRset(a[..|a| - 1], n, t) == RRset(b[..|b| - 1], n, t)
    ensures a[|a| - 1].Has(n, t) ==> a[|a| - 1] == b[|b| - 1]
  {
    var p, q := RRset(a[..|a| - 1], n, t), RRset(b[..|b| - 1], n, t);
    if a[|a| - 1].Has(n, t) {
      SnocInjective(p, a[|a| - 1], q, b[|b| - 1]);
    } else {
      assert p + [] == p && q + [] == q;
    }
  }

  lemma SnocInjective<T>(p: seq<T>, x: T, q: seq<T>, y: T)
    requires p + [x] == q + [y]
    ensures p == q && x == y
  {
    assert (p + [x])[..|p|] == p && (q + [y])[..|q|] == q;
    assert (p + [x])[|p|] == (q + [y])[|q|];
  }

  lemma LastKeysAgree(a: seq<Record>, b: seq<Record>)
    requires InOrder(a) && InOrder(b) && SameRRsets(a, b) && a != [] && b != []
    ensures b[|b| - 1].Has(a[|a| - 1].owner, a[|a| - 1].Type())
  {
    var x, y := a[|a| - 1], b[|b| - 1];
    RRsetMembers(a, x.owner, x.Type());
    RRsetMembers(b, x.owner, x.Type());
    assert x in RRset(b, x.owner, x.Type());
    RRsetMembers(a, y.owner, y.Type());
    RRsetMembers(b, y.owner, y.Type());
    assert y in RRset(a, y.owner, y.Type());
    KeyOrder(x, y, x);
    KeyOrder(y, x, y);
    assert KeyLeq(x, y);
    assert KeyLeq(y, x);
  }

  /** There is exactly one transfer of a log. */
  lemma TransferUnique(log: seq<Record>, middle: seq<Record>)
    requires IsTransfer(log, middle)
    ensures middle == Transfer(log)
  {
    TransferIsTransfer(log);
    OrderedUnique(middle, Transfer(log));
  }

  /** Conservation: a transfer is a permutation of exactly the non-SOA records of the log. */
  lemma TransferConserves(log: seq<Record>)
    ensures forall r :: multiset(Transfer(log))[r] == if r.Type() == SOA then 0 else multiset(log)[r]
  {
    TransferIsTransfer(log);
    forall r ensures multiset(Transfer(log))[r] == if r.Type() == SOA then 0 else multiset(log)[r] {
      RRsetCounts(Transfer(log), r);
      RRsetCounts(log, r);
    }
  }

  /** A replica built from a transfer answers alike and transfers the identical sequence. */
  lemma TransferReplays(log: seq<Record>)
    ensures forall n: Name, t: RecordType ::
              t != SOA ==> RRset(Transfer(log), n, t) == RRset(log, n, t)
    ensures Transfer(Transfer(log)) == Transfer(log)
  {
    TransferIsTransfer(log);
    assert IsTransfer(Transfer(log), Transfer(log));
    TransferUnique(Transfer(log), Transfer(log));
  }

  /** Transfers do not see how the RRsets of a zone file are interleaved. */
  lemma TransferIgnoresInterleaving(a: seq<Record>, b: seq<Record>)
    requires SameRRsets(a, b)
    ensures Transfer(a) == Transfer(b)
  {
    TransferIsTransfer(a);
    TransferUnique(b, Transfer(a));
  }

  // ----- selections said without owner and type -----

  /** The records with a property, in log order. */
  function Where(log: seq<Record>, p: Record -> bool): seq<Record> {
    if log == [] then []
    else Where(log[..|log| - 1], p) + if p(log[|log| - 1]) then [log[|log| - 1]] else []
  }

  lemma {:induction false} WhereMembers(log: seq<Record>, p: Record -> bool)
    ensures forall r :: r in Where(log, p) <==> r in log && p(r)
  {
    if log != [] {
      WhereMembers(log[..|log| - 1], p);
      assert log == log[..|log| - 1] + [log[|log| - 1]];
    }
  }

  lemma {:induction false} RRsetWhere(log: seq<Record>, n: Name, t: RecordType, p: Record -> bool)
    requires forall r :: p(r) <==> r.owner == n && r.rdata.Type() == t
    ensures RRset(log, n, t) == Where(log, p)
  {
    if log != [] {
      RRsetWhere(log[..|log| - 1], n, t, p);
    }
  }

  /** Transfers go from owner to owner in canonical order and from type to type in number order. */
  lemma TransferSorted(log: seq<Record>)
    ensures var s := Transfer(log);
            forall i, j :: 0 <= i < j < |s| ==>
              || NameLess(s[i].owner, s[j].owner)
              || (s[i].owner == s[j].owner && s[i].rdata.Type() <= s[j].rdata.Type())
  {
    TransferIsTransfer(log);
    var s := Transfer(log);
    forall i, j | 0 <= i < j < |s|
      ensures || NameLess(s[i].owner, s[j].owner)
              || (s[i].owner == s[j].owner && s[i].rdata.Type() <= s[j].rdata.Type())
    {
      assert KeyLeq(s[i], s[j]);
      NameLessTotal(s[i].owner, s[j].owner);
    }
  }
}
