/** What a zone and a store mean: flat logs, and the lookups written over them. */
module FlatZones {
  import opened Wrappers
  import opened Names
  import opened Records
  import opened RecordLog

  datatype FlatZone = FlatZone(origin: Name, soa: SoaData, log: seq<Record>) {
    /** The SOA a response carries: its TTL is the zone's negative-caching minimum. */
    function SoaRecord(): Record {
      Record(origin, soa.minimum, Authority(soa))
    }

    /** A complete transfer: the log's non-SOA records between two copies of the SOA. */
    function TransferStream(): seq<Record> {
      [SoaRecord()] + Transfer(log) + [SoaRecord()]
    }
  }

  type FlatStore = map<Name, FlatZone>

  function NonEmpty(s: seq<Record>): Option<seq<Record>> {
    if s == [] then None else Some(s)
  }

  /** Exactly two SOAs are sent, whatever SOA records the log holds. */
  lemma TransferHasTwoSoas(z: FlatZone)
    ensures var stream := z.TransferStream();
            |stream| >= 2
            && stream[0] == stream[|stream| - 1] == z.SoaRecord()
            && forall i :: 0 < i < |stream| - 1 ==> stream[i].Type() != SOA
  {
    TransferConserves(z.log);
    var stream := z.TransferStream();
    forall i | 0 < i < |stream| - 1 ensures stream[i].Type() != SOA {
      assert stream[i] == Transfer(z.log)[i - 1];
      assert multiset(Transfer(z.log))[Transfer(z.log)[i - 1]] > 0;
    }
  }

  // ----- wildcards -----

  function WildcardAt(n: Name, skip: nat): Name
    requires skip <= |n|
  {
    [STAR] + n[skip..]
  }

  /** The records of the nearest wildcard that owns the type. */
  function WildcardSet(log: seq<Record>, n: Name, t: RecordType): seq<Record> {
    if |n| <= 1 then []
    else
      var here := RRset(log, WildcardAt(n, 1), t);
      if here != [] then here else WildcardSet(log, n[1..], t)
  }

  ghost predicate WildcardFoundAt(log: seq<Record>, n: Name, t: RecordType, skip: int) {
    1 <= skip < |n| && RRset(log, WildcardAt(n, skip), t) != []
  }

  /** Some proper non-empty suffix has a `*` child owning the type iff records are found, and
    * they are the records below the longest such suffix. */
  lemma {:induction false} WildcardIsNearest(log: seq<Record>, n: Name, t: RecordType)
    ensures WildcardSet(log, n, t) != [] <==> exists skip :: WildcardFoundAt(log, n, t, skip)
    ensures forall skip ::
              WildcardFoundAt(log, n, t, skip)
              && (forall nearer :: 1 <= nearer < skip ==> !WildcardFoundAt(log, n, t, nearer))
              ==> WildcardSet(log, n, t) == RRset(log, WildcardAt(n, skip), t)
  {
    if |n| > 1 {
      var rest := n[1..];
      WildcardIsNearest(log, rest, t);
      forall skip ensures skip >= 1 ==> WildcardFoundAt(log, n, t, skip + 1) == WildcardFoundAt(log, rest, t, skip) {
        if 1 <= skip < |rest| {
          assert n[skip + 1..] == rest[skip..];
        }
      }
      if WildcardFoundAt(log, n, t, 1) {
      } else {
        forall skip | WildcardFoundAt(log, n, t, skip)
          ensures WildcardFoundAt(log, rest, t, skip - 1)
          ensures (forall nearer :: 1 <= nearer < skip ==> !WildcardFoundAt(log, n, t, nearer))
                  ==> WildcardSet(log, n, t) == RRset(log, WildcardAt(n, skip), t)
        {
          assert skip != 1;
          assert WildcardFoundAt(log, n, t, (skip - 1) + 1);
          assert WildcardAt(n, skip) == WildcardAt(rest, skip - 1);
          if forall nearer :: 1 <= nearer < skip ==> !WildcardFoundAt(log, n, t, nearer) {
            forall nearer | 1 <= nearer < skip - 1 ensures !WildcardFoundAt(log, rest, t, nearer) {
              assert !WildcardFoundAt(log, n, t, nearer + 1);
            }
          }
        }
        if skip :| WildcardFoundAt(log, rest, t, skip) {
          assert WildcardFoundAt(log, n, t, skip + 1);
        }
      }
    }
  }

  /** Building a wildcard name from a valid name never fails. */
  lemma WildcardCandidateValid(n: Name, skip: nat)
    requires ValidName(n) && 1 <= skip < |n|
    ensures ValidName(WildcardAt(n, skip))
  {
    assert n == n[..skip] + n[skip..];
    WireLengthConcat(n[..skip], n[skip..]);
    WireLengthConcat([STAR], n[skip..]);
    assert WireLength(n[..skip]) == 1 + |n[0]| + WireLength(n[..skip][1..]);
    assert WireLength([STAR]) == 1 + |STAR| + WireLength([]);
  }

  // ----- zone selection -----

  /** The scan over the zones of a store, in the order the map yields them. */
  function Scan(order: seq<Name>, name: Name): Option<Name> {
    if order == [] then None
    else
      var before := Scan(order[..|order| - 1], name);
      var o := order[|order| - 1];
      if IsSuffix(o, name) && NumLabels(o) > (match before case None => 0 case Some(b) => NumLabels(b))
      then Some(o) else before
  }

  /** The zones `find_zone` may return: an exact match, else a best-counted encloser. */
  predicate Selects(origins: set<Name>, name: Name, choice: Option<Name>) {
    if name in origins then choice == Some(name)
    else
      match choice
      case None => forall o :: o in origins && IsSuffix(o, name) ==> NumLabels(o) == 0
      case Some(c) =>
        && c in origins && IsSuffix(c, name) && NumLabels(c) > 0
        && forall o :: o in origins && IsSuffix(o, name) ==> NumLabels(o) <= NumLabels(c)
  }

  lemma {:induction false} ScanBest(order: seq<Name>, name: Name)
    ensures match Scan(order, name)
            case None => forall o :: o in order && IsSuffix(o, name) ==> NumLabels(o) == 0
            case Some(c) =>
              && c in order && IsSuffix(c, name) && NumLabels(c) > 0
              && forall o :: o in order && IsSuffix(o, name) ==> NumLabels(o) <= NumLabels(c)
  {
    if order != [] {
      ScanBest(order[..|order| - 1], name);
      assert order == order[..|order| - 1] + [order[|order| - 1]];
    }
  }

  /** Every choice `Selects` allows is really made under some iteration order. */
  lemma {:induction false} ScanReaches(c: Name, rest: seq<Name>, name: Name)
    requires IsSuffix(c, name) && NumLabels(c) > 0
    requires forall o :: o in rest && IsSuffix(o, name) ==> NumLabels(o) <= NumLabels(c)
    ensures Scan([c] + rest, name) == Some(c)
  {
    if rest == [] {
      assert [c] + rest == [c];
      assert Scan([c][..0], name) == None;
    } else {
      ScanReaches(c, rest[..|rest| - 1], name);
      assert ([c] + rest)[..|rest|] == [c] + rest[..|rest| - 1];
      assert rest[|rest| - 1] in rest;
    }
  }

  /** The enclosing origin with the most labels, found by walking up from the name. */
  function LongestEnclosing(origins: set<Name>, name: Name): (c: Option<Name>)
    ensures c.Some? ==> c.value in origins && |c.value| <= |name|
  {
    if name in origins then Some(name)
    else if name == [] then None
    else LongestEnclosing(origins, name[1..])
  }

  lemma {:induction false} LongestEnclosingIsLongest(origins: set<Name>, name: Name)
    ensures match LongestEnclosing(origins, name)
            case None => forall o :: o in origins ==> !IsSuffix(o, name)
            case Some(c) =>
              && c in origins && IsSuffix(c, name)
              && forall o :: o in origins && IsSuffix(o, name) ==> |o| <= |c|
  {
    if name in origins {
      assert name[0..] == name;
    } else if name == [] {
      assert name[0..] == name;
    } else {
      LongestEnclosingIsLongest(origins, name[1..]);
      forall o | o in origins ensures IsSuffix(o, name) <==> IsSuffix(o, name[1..]) {
        if |o| == |name| {
          assert name[0..] == name;
        } else if |o| < |name| {
          assert name[|name| - |o|..] == name[1..][|name| - 1 - |o|..];
        }
      }
    }
  }

  /** The guard under which the scan finds the longest enclosing origin in every order. */
  predicate CountsTrue(origins: set<Name>, name: Name) {
    match LongestEnclosing(origins, name)
    case None => true
    case Some(c) =>
      || c == name
      || (NumLabels(c) > 0 && !(c[0] == STAR && c[1..] in origins && NumLabels(c[1..]) == |c| - 1))
  }

  /** `find_zone` returns the longest enclosing origin under every iteration order exactly when
    * that origin is the name itself, or it counts at least one label and, if it starts with `*`,
    * the name below its `*` is not an origin counting as many. */
  lemma FindZoneExact(origins: set<Name>, name: Name)
    ensures (forall c :: Selects(origins, name, c) ==> c == LongestEnclosing(origins, name))
            <==> CountsTrue(origins, name)
  {
    LongestEnclosingIsLongest(origins, name);
    match LongestEnclosing(origins, name)
    case None =>
      assert name[0..] == name;
    case Some(c) =>
      assert name[0..] == name;
      if c != name {
        if CountsTrue(origins, name) {
          forall d | Selects(origins, name, d) ensures d == Some(c) {
            CountsTrueSelects(origins, name, c, d);
          }
        } else if NumLabels(c) == 0 {
          ShortSelects(origins, name, c);
        } else {
          ParentSelects(origins, name, c);
        }
      }
  }

  /** A tie: the name below the `*` can be selected too. */
  lemma ParentSelects(origins: set<Name>, name: Name, c: Name)
    requires LongestEnclosing(origins, name) == Some(c) && c != name && NumLabels(c) > 0
    requires c[0] == STAR && c[1..] in origins && NumLabels(c[1..]) == |c| - 1
    ensures Selects(origins, name, Some(c[1..]))
  {
    LongestEnclosingIsLongest(origins, name);
    var d := c[1..];
    assert name !in origins;
    assert IsSuffix(d, name) by {
      assert name[|name| - |c|..][1..] == name[|name| - |d|..];
    }
    forall o | o in origins && IsSuffix(o, name) ensures NumLabels(o) <= NumLabels(d) {
      if |o| == |c| {
        SuffixesDiffer(o, c, name);
      }
    }
  }

  lemma CountsTrueSelects(origins: set<Name>, name: Name, c: Name, d: Option<Name>)
    requires LongestEnclosing(origins, name) == Some(c) && c != name && CountsTrue(origins, name)
    requires Selects(origins, name, d)
    ensures d == Some(c)
  {
    LongestEnclosingIsLongest(origins, name);
    SuffixesDiffer(d.value, c, name);
  }

  /** With only the root or `*` to enclose the name, the scan finds nothing of that length. */
  lemma ShortSelects(origins: set<Name>, name: Name, c: Name)
    requires LongestEnclosing(origins, name) == Some(c) && c != name && NumLabels(c) == 0
    ensures Selects(origins, name, None)
  {
    LongestEnclosingIsLongest(origins, name);
    assert name[0..] == name;
    forall o | o in origins && IsSuffix(o, name) ensures NumLabels(o) == 0 {
      if |o| == |c| {
        SuffixesDiffer(o, c, name);
      }
    }
  }

  // ----- uniqueness -----

  /** The origins that the scan can select: all but the root and `*`. */
  function Counted(origins: set<Name>): set<Name> {
    set o | o in origins && NumLabels(o) > 0
  }

  /** The zone for a name: an exact match, else the longest encloser that counts labels. */
  function TheZone(origins: set<Name>, name: Name): (choice: Option<Name>)
    ensures choice.Some? ==> choice.value in origins
  {
    if name in origins then Some(name) else LongestEnclosing(Counted(origins), name)
  }

  /** That encloser starts with `*`, and the name below its `*` is an origin counting as much. */
  predicate Tied(origins: set<Name>, name: Name) {
    match TheZone(origins, name)
    case None => false
    case Some(c) =>
      c != name && c != ROOT && c[0] == STAR && c[1..] in origins && NumLabels(c[1..]) == NumLabels(c)
  }

  lemma TheZoneSelected(origins: set<Name>, name: Name)
    ensures Selects(origins, name, TheZone(origins, name))
  {
    var counted := Counted(origins);
    LongestEnclosingIsLongest(counted, name);
    if name !in origins {
      forall o | o in origins && IsSuffix(o, name)
        ensures match TheZone(origins, name) case None => NumLabels(o) == 0 case Some(c) => NumLabels(o) <= NumLabels(c)
      {
        if NumLabels(o) > 0 {
          assert o in counted;
          SuffixesDiffer(o, TheZone(origins, name).value, name);
        }
      }
    }
  }

  /** Only a tie leaves a choice. */
  lemma UntiedSelects(origins: set<Name>, name: Name, d: Option<Name>)
    requires !Tied(origins, name) && Selects(origins, name, d)
    ensures d == TheZone(origins, name)
  {
    TheZoneSelected(origins, name);
    LongestEnclosingIsLongest(Counted(origins), name);
    if name !in origins && d.Some? {
      assert d.value in Counted(origins);
      SuffixesDiffer(d.value, TheZone(origins, name).value, name);
      Shorter(d.value, TheZone(origins, name).value);
    }
  }

  lemma Shorter(d: Name, c: Name)
    requires IsSuffix(d, c) && NumLabels(d) == NumLabels(c)
    ensures d == c || (c != ROOT && c[0] == STAR && d == c[1..])
  {
    if |d| == |c| {
      assert c[0..] == c;
    }
  }

  /** The selected zone is the same under every iteration order exactly when there is no tie;
    * it is then an exact match, else the longest origin enclosing the name that is neither the
    * root nor `*`, else none. */
  lemma SelectionExact(origins: set<Name>, name: Name)
    ensures (forall c :: Selects(origins, name, c) ==> c == TheZone(origins, name)) <==> !Tied(origins, name)
  {
    if Tied(origins, name) {
      TheZoneSelected(origins, name);
      var c := TheZone(origins, name).value;
      LongestEnclosingIsLongest(Counted(origins), name);
      assert IsSuffix(c[1..], name) by {
        assert name[|name| - |c|..][1..] == name[|name| - (|c| - 1)..];
      }
      assert Selects(origins, name, Some(c[1..]));
    } else {
      forall c | Selects(origins, name, c) ensures c == TheZone(origins, name) {
        UntiedSelects(origins, name, c);
      }
    }
  }

  /** No origin is the `*` child of another one. The root may be among the origins. */
  predicate PlainOrigins(origins: set<Name>) {
    forall o :: o in origins && o != ROOT && o[0] == STAR ==> o[1..] !in origins
  }

  /** In such stores the answer is always unique. */
  lemma PlainFindZone(origins: set<Name>, name: Name, choice: Option<Name>)
    requires PlainOrigins(origins) && Selects(origins, name, choice)
    ensures choice == TheZone(origins, name)
  {
    UntiedSelects(origins, name, choice);
  }

  /** A root zone answers for the root alone. */
  lemma RootNotSelected()
    ensures Selects({ROOT}, ["a"], None) && LongestEnclosing({ROOT}, ["a"]) == Some(ROOT)
    ensures TheZone({ROOT}, ["a"]) == None && TheZone({ROOT}, ROOT) == Some(ROOT)
  {
    TheZoneSelected({ROOT}, ["a"]);
    assert ["a"][1..] == [];
    LongestEnclosingIsLongest(Counted({ROOT}), ["a"]);
  }

  /** Two origins of which either can be selected. */
  lemma TwoSelected()
    ensures var origins, name := {["a"], [STAR, "a"]}, ["b", STAR, "a"];
            Selects(origins, name, Some(["a"])) && Selects(origins, name, Some([STAR, "a"]))
  {
    var name: Name := ["b", STAR, "a"];
    assert name[1..] == [STAR, "a"] && name[2..] == ["a"];
  }

  // ----- wildcards over the records -----

  ghost predicate OwnedBelow(log: seq<Record>, n: Name, t: RecordType, skip: int) {
    1 <= skip < |n| && exists r :: r in log && r.owner == ["*"] + n[skip..] && r.rdata.Type() == t
  }

  lemma OwnedBelowFound(log: seq<Record>, n: Name, t: RecordType, skip: int)
    ensures OwnedBelow(log, n, t, skip) <==> WildcardFoundAt(log, n, t, skip)
  {
    if 1 <= skip < |n| {
      RRsetMembers(log, WildcardAt(n, skip), t);
      if WildcardFoundAt(log, n, t, skip) {
        assert RRset(log, WildcardAt(n, skip), t)[0] in RRset(log, WildcardAt(n, skip), t);
      }
    }
  }

  ghost predicate NearestBelow(log: seq<Record>, n: Name, t: RecordType, skip: int) {
    && OwnedBelow(log, n, t, skip)
    && forall nearer :: 1 <= nearer < skip ==> !OwnedBelow(log, n, t, nearer)
  }

  /** The wildcard's records are, in log order, those of the `*` child that leaves off the fewest
    * labels, at least one and not all, and owns the type; none if no such child does. */
  lemma WildcardExact(log: seq<Record>, n: Name, t: RecordType)
    ensures (forall skip :: !OwnedBelow(log, n, t, skip)) ==> WildcardSet(log, n, t) == []
    ensures forall skip :: NearestBelow(log, n, t, skip) ==>
              WildcardSet(log, n, t)
              == Where(log, (r: Record) => r.owner == ["*"] + n[skip..] && r.rdata.Type() == t)
  {
    WildcardIsNearest(log, n, t);
    forall skip ensures OwnedBelow(log, n, t, skip) <==> WildcardFoundAt(log, n, t, skip) {
      OwnedBelowFound(log, n, t, skip);
    }
    forall skip | NearestBelow(log, n, t, skip)
      ensures WildcardSet(log, n, t)
              == Where(log, (r: Record) => r.owner == ["*"] + n[skip..] && r.rdata.Type() == t)
    {
      RRsetWhere(log, WildcardAt(n, skip), t, (r: Record) => r.owner == ["*"] + n[skip..] && r.rdata.Type() == t);
    }
  }
}
