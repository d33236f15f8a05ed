/** The key tag of a DNSKEY (`src/dnssec.rs`; Appendix B of RFC 4034). */
module KeyTags {
  import opened Wrappers
  import opened Records

  const TWO_16 := 0x1_0000
  const TWO_32 := 0x1_0000_0000

  /** The longest RDATA for which no 32-bit addition can overflow. */
  const MAX_SAFE_LENGTH := 131072

  function DnskeyRdata(flags: Word, algorithm: Octet, publicKey: seq<Octet>): seq<Octet> {
    var f: nat := flags;
    [f / 256, f % 256, 3, algorithm] + publicKey
  }

  function Contribution(i: nat, b: Octet): nat {
    if i % 2 == 0 then b * 256 else b
  }

  /** The accumulator without any word size. */
  function ByteSum(rdata: seq<Octet>): nat {
    if rdata == [] then 0
    else ByteSum(rdata[..|rdata| - 1]) + Contribution(|rdata| - 1, rdata[|rdata| - 1])
  }

  /** The sum of the big-endian 16-bit words, the last one padded with a zero octet. */
  function WordSum(rdata: seq<Octet>): nat {
    if rdata == [] then 0
    else if |rdata| == 1 then rdata[0] * 256
    else rdata[0] * 256 + rdata[1] + WordSum(rdata[2..])
  }

  lemma {:induction false} ByteSumFront(a: Octet, b: Octet, rest: seq<Octet>)
    ensures ByteSum([a, b] + rest) == a * 256 + b + ByteSum(rest)
    decreases |rest|
  {
    var all := [a, b] + rest;
    if rest == [] {
      assert all[..1][..0] == [] && all == [a, b];
      assert ByteSum(all[..1]) == ByteSum(all[..1][..0]) + a * 256;
    } else {
      assert all[..|all| - 1] == [a, b] + rest[..|rest| - 1];
      ByteSumFront(a, b, rest[..|rest| - 1]);
    }
  }

  lemma {:induction false} ByteSumIsWordSum(rdata: seq<Octet>)
    ensures ByteSum(rdata) == WordSum(rdata)
  {
    if |rdata| == 1 {
      assert rdata[..0] == [];
    } else if |rdata| > 1 {
      ByteSumFront(rdata[0], rdata[1], rdata[2..]);
      assert rdata == [rdata[0], rdata[1]] + rdata[2..];
      ByteSumIsWordSum(rdata[2..]);
    }
  }

  /** Appendix B: the sum, its carries folded in once, cut to 16 bits. */
  function Tag(sum: nat): nat {
    (sum % TWO_16 + sum / TWO_16) % TWO_16
  }

  /** All the 32-bit additions of the computation stay in range. */
  predicate Fits(rdata: seq<Octet>) {
    ByteSum(rdata) < TWO_32 && ByteSum(rdata) + ByteSum(rdata) / TWO_16 < TWO_32
  }

  /** `wrapped` tells whether an addition left the 32 bits. Records other than DNSKEY have no tag. */
  method ComputeKeyTag(dnskey: Record) returns (tag: Result<nat>, wrapped: bool)
    ensures tag.Ok? <==> dnskey.rdata.Key?
    ensures match dnskey.rdata
            case Key(flags, algorithm, publicKey) =>
              var rdata := DnskeyRdata(flags, algorithm, publicKey);
              && (wrapped <==> !Fits(rdata))
              && (!wrapped ==> tag == Ok(Tag(WordSum(rdata))))
              && (|rdata| <= MAX_SAFE_LENGTH ==> !wrapped)
            case _ => !wrapped
  {
    if !dnskey.rdata.Key? {
      return Err, false;
    }
    var value;
    value, wrapped := TagOf(DnskeyRdata(dnskey.rdata.flags, dnskey.rdata.algorithm, dnskey.rdata.publicKey));
    return Ok(value), wrapped;
  }

  /** The loop over `ac: u32`. */
  method TagOf(rdata: seq<Octet>) returns (tag: nat, wrapped: bool)
    ensures wrapped <==> !Fits(rdata)
    ensures !wrapped ==> tag == Tag(WordSum(rdata))
    ensures |rdata| <= MAX_SAFE_LENGTH ==> !wrapped
  {
    var ac := 0;
    wrapped := false;
    for i := 0 to |rdata|
      invariant 0 <= ac < TWO_32
      invariant wrapped <==> ByteSum(rdata[..i]) >= TWO_32
      invariant !wrapped ==> ac == ByteSum(rdata[..i])
    {
      assert rdata[..i + 1][..i] == rdata[..i];
      var octet: nat := rdata[i];
      var term := if i % 2 == 0 then octet * 256 else octet;
      wrapped := wrapped || ac + term >= TWO_32;
      ac := (ac + term) % TWO_32;
    }
    assert rdata[..|rdata|] == rdata;
    ByteSumIsWordSum(rdata);
    FitsUpTo(rdata);
    var carries := (ac / TWO_16) % TWO_16;
    wrapped := wrapped || ac + carries >= TWO_32;
    FoldCarries(ac);
    ac := (ac + carries) % TWO_32;
    tag := ac % TWO_16;
  }

  lemma FoldCarries(ac: nat)
    requires ac < TWO_32
    ensures (ac / TWO_16) % TWO_16 == ac / TWO_16
    ensures (ac + ac / TWO_16) % TWO_16 == Tag(ac)
  {
    var hi, lo := ac / TWO_16, ac % TWO_16;
    assert ac == TWO_16 * hi + lo && hi < TWO_16;
  }

  lemma {:induction false} ByteSumBound(rdata: seq<Octet>)
    ensures ByteSum(rdata) <= (|rdata| / 2) * 65535 + (|rdata| % 2) * 65280
  {
    if rdata != [] {
      ByteSumBound(rdata[..|rdata| - 1]);
    }
  }

  lemma FitsUpTo(rdata: seq<Octet>)
    ensures |rdata| <= MAX_SAFE_LENGTH ==> Fits(rdata)
  {
    ByteSumBound(rdata);
  }

  function Ones(n: nat): seq<Octet> {
    seq(n, i => 255)
  }

  lemma {:induction false} ByteSumOnes(n: nat)
    ensures ByteSum(Ones(n)) == (n / 2) * 65535 + (n % 2) * 65280
  {
    if n > 0 {
      assert Ones(n)[..n - 1] == Ones(n - 1);
      ByteSumOnes(n - 1);
    }
  }

  lemma DnskeySum(flags: Word, algorithm: Octet, publicKey: seq<Octet>)
    ensures ByteSum(DnskeyRdata(flags, algorithm, publicKey)) == flags + 3 * 256 + algorithm + ByteSum(publicKey)
  {
    var f: nat := flags;
    var front: seq<Octet> := [f / 256, f % 256];
    var rest := [3, algorithm] + publicKey;
    assert DnskeyRdata(flags, algorithm, publicKey) == front + rest;
    ByteSumFront(f / 256, f % 256, rest);
    ByteSumFront(3, algorithm, publicKey);
  }

  /** The length bound is exact for all flags: it is the largest RDATA length at which the
    * computation fits whatever the key. */
  lemma FitsExact(n: nat)
    ensures (forall flags, algorithm, key ::
               |DnskeyRdata(flags, algorithm, key)| == n ==> Fits(DnskeyRdata(flags, algorithm, key)))
            <==> n <= MAX_SAFE_LENGTH
  {
    if n <= MAX_SAFE_LENGTH {
      forall flags, algorithm, key | |DnskeyRdata(flags, algorithm, key)| == n
        ensures Fits(DnskeyRdata(flags, algorithm, key))
      {
        FitsUpTo(DnskeyRdata(flags, algorithm, key));
      }
    } else {
      DnskeySum(65535, 255, Ones(n - 4));
      ByteSumOnes(n - 4);
      assert !Fits(DnskeyRdata(65535, 255, Ones(n - 4)));
    }
  }

  /** The flags a parsed key can have: zone key, revoke and secure entry point (section 2.1.1 of
    * RFC 4034, section 7 of RFC 5011). */
  function KeyFlags(zoneKey: bool, revoke: bool, secureEntryPoint: bool): Word {
    (if zoneKey then 256 else 0) + (if revoke then 128 else 0) + (if secureEntryPoint then 1 else 0)
  }

  /** With these flags alone the largest such length is two octets more. */
  lemma ParsedFitsExact(n: nat)
    ensures (forall zoneKey, revoke, secureEntryPoint, algorithm, key ::
               var rdata := DnskeyRdata(KeyFlags(zoneKey, revoke, secureEntryPoint), algorithm, key);
               |rdata| == n ==> Fits(rdata))
            <==> n <= MAX_SAFE_LENGTH + 2
  {
    if n <= MAX_SAFE_LENGTH + 2 {
      forall zoneKey, revoke, secureEntryPoint, algorithm, key: seq<Octet> | |key| + 4 == n
        ensures Fits(DnskeyRdata(KeyFlags(zoneKey, revoke, secureEntryPoint), algorithm, key))
      {
        DnskeySum(KeyFlags(zoneKey, revoke, secureEntryPoint), algorithm, key);
        ByteSumBound(key);
      }
    } else {
      DnskeySum(KeyFlags(true, true, true), 255, Ones(n - 4));
      ByteSumOnes(n - 4);
      assert |DnskeyRdata(KeyFlags(true, true, true), 255, Ones(n - 4))| == n;
      assert !Fits(DnskeyRdata(KeyFlags(true, true, true), 255, Ones(n - 4)));
    }
  }

  /** At the bound the last addition reaches exactly 2^32 - 1. */
  lemma BoundIsTight()
    ensures var sum := ByteSum(Ones(MAX_SAFE_LENGTH)); sum + sum / TWO_16 == TWO_32 - 1
  {
    ByteSumOnes(MAX_SAFE_LENGTH);
  }
}
