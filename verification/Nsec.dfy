/** NSEC proofs of non-existence (`src/dnssec.rs`). */
module NsecDenial {
  import opened Wrappers
  import opened Names
  import opened Records

  /** The name lies strictly between owner and next, or beyond the end of the chain. */
  predicate Covers(owner: Name, next: Name, q: Name) {
    if NameLess(owner, next) then NameLess(owner, q) && NameLess(q, next)
    else NameLess(owner, q) || NameLess(q, next)
  }

  predicate Proves(r: Record, q: Name, t: RecordType) {
    && r.rdata.NextSecure?
    && (Covers(r.owner, r.rdata.next, q) || (q == r.owner && t !in r.rdata.types))
  }

  method ValidateNsecDenial(q: Name, t: RecordType, records: seq<Record>) returns (verdict: Result<()>)
    ensures verdict.Ok? <==> exists r :: r in records && Proves(r, q, t)
  {
    for i := 0 to |records|
      invariant forall j :: 0 <= j < i ==> !Proves(records[j], q, t)
    {
      var nsec := records[i];
      if !nsec.rdata.NextSecure? {
        continue;
      }
      var owner, next := nsec.owner, nsec.rdata.next;
      var coversName;
      if NameLess(owner, next) {
        coversName := NameLess(owner, q) && NameLess(q, next);
      } else {
        coversName := NameLess(owner, q) || NameLess(q, next);
      }
      if coversName {
        assert nsec in records && Proves(nsec, q, t);
        return Ok(());
      }
      if q == owner {
        var typeExists := t in nsec.rdata.types;
        if !typeExists {
          assert nsec in records && Proves(nsec, q, t);
          return Ok(());
        }
      }
    }
    return Err;
  }

  /** The owners of a zone in canonical order, with the types each one owns. */
  ghost predicate IsChain(owners: seq<Name>, types: map<Name, seq<RecordType>>) {
    && owners != []
    && (forall i, j :: 0 <= i < j < |owners| ==> NameLess(owners[i], owners[j]))
    && (forall n :: n in owners ==> n in types)
  }

  /** The i-th record of the chain: it points to the next owner, the last one to the first. */
  ghost predicate IsLink(r: Record, owners: seq<Name>, types: map<Name, seq<RecordType>>, i: int)
    requires IsChain(owners, types)
  {
    && 0 <= i < |owners|
    && r.owner == owners[i]
    && r.rdata == NextSecure(owners[if i + 1 < |owners| then i + 1 else 0], types[owners[i]])
  }

  ghost predicate HasLink(records: seq<Record>, owners: seq<Name>, types: map<Name, seq<RecordType>>, i: int)
    requires IsChain(owners, types)
  {
    exists r :: r in records && IsLink(r, owners, types, i)
  }

  ghost predicate Exists(owners: seq<Name>, types: map<Name, seq<RecordType>>, q: Name, t: RecordType)
    requires IsChain(owners, types)
  {
    q in owners && t in types[q]
  }

  /** No link of the chain denies what exists. */
  lemma LinkSound(owners: seq<Name>, types: map<Name, seq<RecordType>>, r: Record, i: nat, q: Name, t: RecordType)
    requires IsChain(owners, types) && IsLink(r, owners, types, i) && Proves(r, q, t)
    ensures !Exists(owners, types, q, t)
  {
    if q in owners {
      var j :| 0 <= j < |owners| && owners[j] == q;
      NameLessTotal(owners[i], q);
      NameLessTotal(q, r.rdata.next);
      NameLessTotal(owners[i], r.rdata.next);
    }
  }

  /** A name that is no owner falls before the first, after the last, or into one gap. */
  lemma {:induction false} FindGap(owners: seq<Name>, q: Name, k: nat) returns (i: nat)
    requires forall i, j :: 0 <= i < j < |owners| ==> NameLess(owners[i], owners[j])
    requires q !in owners && k < |owners| && NameLess(owners[0], q) && NameLess(q, owners[k])
    ensures i < k && NameLess(owners[i], q) && NameLess(q, owners[i + 1])
  {
    NameLessTotal(owners[0], q);
    assert k > 0;
    NameLessTotal(owners[k - 1], q);
    if NameLess(owners[k - 1], q) {
      i := k - 1;
    } else {
      i := FindGap(owners, q, k - 1);
    }
  }

  /** Some link of the full chain denies whatever does not exist. */
  lemma LinkComplete(owners: seq<Name>, types: map<Name, seq<RecordType>>, q: Name, t: RecordType)
    returns (i: nat)
    requires IsChain(owners, types) && !Exists(owners, types, q, t)
    ensures i < |owners|
    ensures forall r :: IsLink(r, owners, types, i) ==> Proves(r, q, t)
  {
    var last := |owners| - 1;
    if q in owners {
      i :| 0 <= i < |owners| && owners[i] == q;
    } else {
      NameLessTotal(owners[0], q);
      NameLessTotal(owners[last], q);
      NameLessTotal(owners[last], owners[0]);
      if NameLess(owners[0], q) && NameLess(q, owners[last]) {
        i := FindGap(owners, q, last);
        assert NameLess(owners[i], owners[i + 1]);
      } else {
        i := last;
        assert last > 0 ==> NameLess(owners[0], owners[last]);
      }
    }
  }

  /** Denial is exact. If all the NSEC records are links of the chain, a successful validation is
    * sound; if moreover every link is there, in any order and among any other records,
    * validation succeeds exactly when the name is no owner or does not own the type. */
  lemma DenialExact(
    owners: seq<Name>, types: map<Name, seq<RecordType>>, records: seq<Record>, q: Name, t: RecordType)
    requires IsChain(owners, types)
    requires forall r :: r in records && r.rdata.NextSecure? ==> exists i :: IsLink(r, owners, types, i)
    ensures (exists r :: r in records && Proves(r, q, t)) ==> !Exists(owners, types, q, t)
    ensures (forall i :: 0 <= i < |owners| ==> HasLink(records, owners, types, i)) ==>
              ((exists r :: r in records && Proves(r, q, t)) <==> !Exists(owners, types, q, t))
  {
    if r :| r in records && Proves(r, q, t) {
      var i :| IsLink(r, owners, types, i);
      LinkSound(owners, types, r, i, q, t);
    }
    if !Exists(owners, types, q, t)
       && forall i :: 0 <= i < |owners| ==> HasLink(records, owners, types, i) {
      var i := LinkComplete(owners, types, q, t);
      assert HasLink(records, owners, types, i);
      var r :| r in records && IsLink(r, owners, types, i);
      assert Proves(r, q, t);
    }
  }
}
