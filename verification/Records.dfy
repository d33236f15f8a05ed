/** Resource records. A record's type is that of its data. */
module Records {
  import opened Names

  type Octet = n: nat | n < 256
  type Word = n: nat | n < 65536
  type RecordType = Word

  const A: RecordType := 1
  const NS: RecordType := 2
  const CNAME: RecordType := 5
  const SOA: RecordType := 6
  const PTR: RecordType := 12
  const MX: RecordType := 15
  const SIG: RecordType := 24   // the type under which RRSIG data is stored
  const SRV: RecordType := 33
  const NSEC: RecordType := 47
  const DNSKEY: RecordType := 48
  const AXFR: RecordType := 252

  datatype SoaData = SoaData(
    mname: Name, rname: Name, serial: nat, refresh: int, retry: int, expire: int, minimum: nat)

  datatype RData =
    | Address(a: Octet, b: Octet, c: Octet, d: Octet)
    | NameServer(host: Name)
    | Alias(target: Name)
    | Pointer(target: Name)
    | Exchange(preference: nat, host: Name)
    | Service(priority: nat, weight: nat, port: nat, host: Name)
    | Authority(soa: SoaData)
    | Signature(typeCovered: RecordType, octets: seq<Octet>)
    | NextSecure(next: Name, types: seq<RecordType>)
    | Key(flags: Word, algorithm: Octet, publicKey: seq<Octet>)
    | Other(code: RecordType, octets: seq<Octet>)
  {
    function Type(): RecordType {
      match this
      case Address(_, _, _, _) => A
      case NameServer(_) => NS
      case Alias(_) => CNAME
      case Pointer(_) => PTR
      case Exchange(_, _) => MX
      case Service(_, _, _, _) => SRV
      case Authority(_) => SOA
      case Signature(_, _) => SIG
      case NextSecure(_, _) => NSEC
      case Key(_, _, _) => DNSKEY
      case Other(code, _) => code
    }
  }

  datatype Record = Record(owner: Name, ttl: nat, rdata: RData) {
    function Type(): RecordType {
      rdata.Type()
    }

    predicate Has(n: Name, t: RecordType) {
      owner == n && Type() == t
    }
  }
}
