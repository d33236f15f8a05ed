/** Zone files (`parse_zone_file` and `parse_resource_record` in `src/zone.rs`). */
module ZoneParser {
  import opened Wrappers
  import opened Names
  import opened Records
  import opened RecordLog
  import opened FlatZones
  import opened ZoneIndex
  import opened Text
  import opened NameText
  import opened ZonePreprocessor

  const DEFAULT_TTL := 3600
  const U16 := 0x1_0000
  const U32 := 0x1_0000_0000

  /** The arms of ten record types, as an unknown function of the type, the tokens after it and the
    * origin. `Ok(None)` drops the line, `Err` fails the file. */
  type Arms = (string, seq<string>, Name) -> Result<Option<RData>>

  function ToResult<T>(o: Option<T>): Result<T> {
    match o case None => Err case Some(v) => Ok(v)
  }

  predicate IsOctetText(s: string) {
    1 <= |s| <= 3 && AllDigits(s) && (|s| > 1 ==> s[0] != '0') && Value(s) < 256
  }

  function ParseAddress(s: string): Option<RData> {
    var p := Split(s);
    if |p| == 4 && IsOctetText(p[0]) && IsOctetText(p[1]) && IsOctetText(p[2]) && IsOctetText(p[3])
    then Some(Address(Value(p[0]), Value(p[1]), Value(p[2]), Value(p[3])))
    else None
  }

  function ParseSoa(args: seq<string>, origin: Name): Option<RData>
    requires |args| >= 7
  {
    var mname, rname := ParseDomainName(args[0], origin), ParseDomainName(args[1], origin);
    var serial, refresh := ParseUnsigned(args[2], U32), ParseI32(args[3]);
    var retry, expire, minimum := ParseI32(args[4]), ParseI32(args[5]), ParseUnsigned(args[6], U32);
    if mname.Some? && rname.Some? && serial.Some? && refresh.Some? && retry.Some? && expire.Some? && minimum.Some?
    then Some(Authority(SoaData(
      mname.value, rname.value, serial.value, refresh.value, retry.value, expire.value, minimum.value)))
    else None
  }

  function ParseExchange(args: seq<string>, origin: Name): Option<RData>
    requires |args| >= 2
  {
    var preference, host := ParseUnsigned(args[0], U16), ParseDomainName(args[1], origin);
    if preference.Some? && host.Some? then Some(Exchange(preference.value, host.value)) else None
  }

  function ParseService(args: seq<string>, origin: Name): Option<RData>
    requires |args| >= 4
  {
    var priority, weight := ParseUnsigned(args[0], U16), ParseUnsigned(args[1], U16);
    var port, host := ParseUnsigned(args[2], U16), ParseDomainName(args[3], origin);
    if priority.Some? && weight.Some? && port.Some? && host.Some?
    then Some(Service(priority.value, weight.value, port.value, host.value))
    else None
  }

  function ParseHost(args: seq<string>, origin: Name, build: Name -> RData): Result<Option<RData>> {
    if |args| < 1 then Ok(None)
    else match ParseDomainName(args[0], origin) case None => Err case Some(n) => Ok(Some(build(n)))
  }

  function Required(parsed: Option<RData>): Result<Option<RData>> {
    if parsed.None? then Err else Ok(parsed)
  }

  predicate HasArm(rtype: string) {
    || rtype == "AAAA" || rtype == "TXT" || rtype == "CAA" || rtype == "DNSKEY" || rtype == "RRSIG"
    || rtype == "NSEC" || rtype == "DS" || rtype == "NAPTR" || rtype == "TLSA" || rtype == "SSHFP"
  }

  /** Too few tokens or an unknown type drop the line; a token that does not parse fails the file. */
  function ParseData(rtype: string, args: seq<string>, origin: Name, arms: Arms): Result<Option<RData>> {
    if rtype == "A" then if |args| < 1 then Ok(None) else Required(ParseAddress(args[0]))
    else if rtype == "NS" then ParseHost(args, origin, n => NameServer(n))
    else if rtype == "SOA" then if |args| < 7 then Ok(None) else Required(ParseSoa(args, origin))
    else if rtype == "CNAME" then ParseHost(args, origin, n => Alias(n))
    else if rtype == "MX" then if |args| < 2 then Ok(None) else Required(ParseExchange(args, origin))
    else if rtype == "PTR" then ParseHost(args, origin, n => Pointer(n))
    else if rtype == "SRV" then if |args| < 4 then Ok(None) else Required(ParseService(args, origin))
    else if HasArm(rtype) then arms(rtype, args, origin)
    else Ok(None)
  }

  /** What stands between owner and type: the TTL that holds, and where the type is. */
  datatype Fields = Fields(ttl: nat, typeAt: nat)

  function FieldsOf(parts: seq<string>, defaultTtl: nat): (f: Fields)
    requires |parts| >= 4
    ensures f.typeAt < |parts|
  {
    var ttl := ParseUnsigned(parts[1], U32);
    var afterTtl := if ttl.Some? then 2 else 1;
    Fields(if ttl.Some? then ttl.value else defaultTtl, if parts[afterTtl] == "IN" then afterTtl + 1 else afterTtl)
  }

  /** What a line's tokens denote: owner, optional TTL, optional class, type, data. */
  function RecordOf(parts: seq<string>, origin: Name, defaultTtl: nat, arms: Arms): Result<Option<Record>> {
    if |parts| < 4 then Ok(None)
    else
      match OwnerName(parts[0], origin)
      case None => Err
      case Some(name) =>
        var f := FieldsOf(parts, defaultTtl);
        match ParseData(parts[f.typeAt], parts[f.typeAt + 1..], origin, arms)
        case Err => Err
        case Ok(None) => Ok(None)
        case Ok(Some(rdata)) => Ok(Some(Record(name, f.ttl, rdata)))
  }

  method ParseResourceRecord(line: string, origin: Name, defaultTtl: nat, arms: Arms)
    returns (r: Result<Option<Record>>)
    ensures r == RecordOf(Tokens(line), origin, defaultTtl, arms)
  {
    var parts := Tokens(line);
    if |parts| < 4 {
      return Ok(None);
    }
    var name := OwnerName(parts[0], origin);
    if name.None? {
      return Err;
    }
    var ttl, idx := ParseFields(parts, defaultTtl);
    var rtype := parts[idx];
    idx := idx + 1;
    var rdata := ParseData(rtype, parts[idx..], origin, arms);
    match rdata
    case Err => return Err;
    case Ok(None) => return Ok(None);
    case Ok(Some(d)) => return Ok(Some(Record(name.value, ttl, d)));
  }

  method ParseFields(parts: seq<string>, defaultTtl: nat) returns (ttl: nat, idx: nat)
    requires |parts| >= 4
    ensures Fields(ttl, idx) == FieldsOf(parts, defaultTtl)
  {
    idx := 1;
    ttl := defaultTtl;
    var explicit := ParseUnsigned(parts[idx], U32);
    if explicit.Some? {
      ttl := explicit.value;
      idx := idx + 1;
    }
    if parts[idx] == "IN" {
      idx := idx + 1;
    }
  }

  // ----- whole files -----

  /** The loop variables of `parse_zone_file`. */
  datatype ParserState = ParserState(zone: Option<FlatZone>, ttl: nat, origin: Name)

  function WithOrigin(st: ParserState, toks: seq<string>): Result<ParserState> {
    if |toks| < 2 then Ok(st)
    else match ParseName(toks[1]) case None => Err case Some(o) => Ok(st.(origin := o))
  }

  function WithTtl(st: ParserState, toks: seq<string>): Result<ParserState> {
    if |toks| < 2 then Ok(st)
    else match ParseUnsigned(toks[1], U32) case None => Err case Some(t) => Ok(st.(ttl := t))
  }

  /** The first SOA creates the zone; records are kept once there is one. */
  function Keep(zone: Option<FlatZone>, origin: Name, r: Record): Option<FlatZone> {
    var z := if zone.None? && r.Type() == SOA && r.rdata.Authority?
             then Some(FlatZone(origin, r.rdata.soa, [])) else zone;
    match z case None => None case Some(f) => Some(f.(log := f.log + [r]))
  }

  predicate IsDirective(toks: seq<string>) {
    toks != [] && StartsWith(toks[0], "$")
  }

  predicate IsSkipped(toks: seq<string>) {
    toks == [] || StartsWith(toks[0], ";")
  }

  function Directive(st: ParserState, toks: seq<string>): Result<ParserState>
    requires IsDirective(toks)
  {
    if StartsWith(toks[0], "$ORIGIN") then WithOrigin(st, toks)
    else if StartsWith(toks[0], "$TTL") then WithTtl(st, toks)
    else Ok(st)
  }

  /** One preprocessed line, by its tokens alone. */
  function HandleLine(st: ParserState, toks: seq<string>, zoneOrigin: Name, arms: Arms): Result<ParserState> {
    if IsSkipped(toks) then Ok(st)
    else if IsDirective(toks) then Directive(st, toks)
    else
      match RecordOf(toks, st.origin, st.ttl, arms)
      case Err => Err
      case Ok(None) => Ok(st)
      case Ok(Some(r)) => Ok(st.(zone := Keep(st.zone, zoneOrigin, r)))
  }

  function HandleLines(st: ParserState, lines: seq<string>, zoneOrigin: Name, arms: Arms): Result<ParserState> {
    if lines == [] then Ok(st)
    else
      match HandleLines(st, lines[..|lines| - 1], zoneOrigin, arms)
      case Err => Err
      case Ok(before) => HandleLine(before, Tokens(lines[|lines| - 1]), zoneOrigin, arms)
  }

  function Begin(origin: Name): ParserState {
    ParserState(None, DEFAULT_TTL, origin)
  }

  /** The zone that a file's lines denote. */
  function ZoneOf(lines: seq<string>, origin: Name, arms: Arms): Result<FlatZone> {
    match HandleLines(Begin(origin), Processed(lines), origin, arms)
    case Err => Err
    case Ok(st) => ToResult(st.zone)
  }

  /** A file that cannot be read is `None`. */
  function FileDenotes(content: Option<string>, originName: string, arms: Arms): Result<FlatZone> {
    if content.None? || ParseName(originName).None? then Err
    else ZoneOf(Lines(content.value), ParseName(originName).value, arms)
  }

  method ParseZoneFile(content: Option<string>, originName: string, arms: Arms) returns (r: Result<Zone>)
    ensures r.Ok? <==> FileDenotes(content, originName, arms).Ok?
    ensures r.Ok? ==> fresh(r.value) && r.value.Valid() && Ok(r.value.Flat()) == FileDenotes(content, originName, arms)
  {
    if content.None? {
      return Err;
    }
    var parsedOrigin := ParseName(originName);
    if parsedOrigin.None? {
      return Err;
    }
    r := ParseContent(content.value, parsedOrigin.value, arms);
  }

  method ParseContent(content: string, origin: Name, arms: Arms) returns (r: Result<Zone>)
    ensures r.Ok? <==> ZoneOf(Lines(content), origin, arms).Ok?
    ensures r.Ok? ==> fresh(r.value) && r.value.Valid()
    ensures r.Ok? ==> Ok(r.value.Flat()) == ZoneOf(Lines(content), origin, arms)
  {
    var lines := PreprocessZoneContent(content);
    var ok, zone := ParseLines(lines, origin, arms);
    if !ok || zone == null {
      return Err;
    }
    return Ok(zone);
  }

  method ParseLines(lines: seq<string>, origin: Name, arms: Arms) returns (ok: bool, zone: Zone?)
    ensures zone != null ==> fresh(zone) && zone.Valid()
    ensures match HandleLines(Begin(origin), lines, origin, arms)
            case Err => !ok
            case Ok(st) => ok && st.zone == if zone == null then None else Some(zone.Flat())
  {
    ok, zone := true, null;
    var defaultTtl: nat := DEFAULT_TTL;
    var currentOrigin := origin;
    for i := 0 to |lines|
      invariant ok && (zone != null ==> fresh(zone) && zone.Valid())
      invariant HandleLines(Begin(origin), lines[..i], origin, arms) == Ok(Snapshot(zone, defaultTtl, currentOrigin))
    {
      assert lines[..i + 1][..i] == lines[..i];
      ok, zone, defaultTtl, currentOrigin := ParseLine(zone, defaultTtl, currentOrigin, lines[i], origin, arms);
      if !ok {
        ErrorStays(Begin(origin), lines, i + 1, origin, arms);
        return;
      }
    }
    assert lines[..|lines|] == lines;
  }

  /** The body of the loop; not `ok` means the file is rejected. */
  method ParseLine(
    zone: Zone?, defaultTtl: nat, currentOrigin: Name, text: string, origin: Name, arms: Arms)
    returns (ok: bool, newZone: Zone?, newTtl: nat, newOrigin: Name)
    requires zone != null ==> zone.Valid()
    modifies zone
    ensures newZone != null ==> newZone.Valid() && (newZone == zone || fresh(newZone))
    ensures HandleLine(old(Snapshot(zone, defaultTtl, currentOrigin)), Tokens(text), origin, arms)
            == if ok then Ok(Snapshot(newZone, newTtl, newOrigin)) else Err
  {
    ok, newZone, newTtl, newOrigin := true, zone, defaultTtl, currentOrigin;
    var line := Trim(text);
    TokensTrim(text);
    TokensEmpty(text);
    if line == "" {
      return;
    }
    TrimVisible(text);
    TrimmedStarts(line);
    if line[0] == ';' {
      return;
    }
    if line[0] == '$' {
      var toks := Tokens(line);
      if StartsWith(line, "$ORIGIN") {
        if |toks| >= 2 {
          var o := ParseName(toks[1]);
          ok := o.Some?;
          newOrigin := if ok then o.value else currentOrigin;
        }
      } else if StartsWith(line, "$TTL") {
        if |toks| >= 2 {
          var t := ParseUnsigned(toks[1], U32);
          ok := t.Some?;
          newTtl := if ok then t.value else defaultTtl;
        }
      }
      return;
    }
    var parsed := ParseResourceRecord(line, currentOrigin, defaultTtl, arms);
    ok := parsed.Ok?;
    if ok && parsed.value.Some? {
      newZone := KeepRecord(zone, origin, parsed.value.value);
    }
  }

  method KeepRecord(zone: Zone?, origin: Name, record: Record) returns (newZone: Zone?)
    requires zone != null ==> zone.Valid()
    modifies zone
    ensures newZone != null ==> newZone.Valid() && (newZone == zone || fresh(newZone))
    ensures (if newZone == null then None else Some(newZone.Flat()))
            == Keep(old(if zone == null then None else Some(zone.Flat())), origin, record)
  {
    newZone := zone;
    if record.Type() == SOA && zone == null && record.rdata.Authority? {
      newZone := new Zone(origin, record.rdata.soa);
    }
    if newZone != null {
      newZone.AddRecord(record);
    }
  }

  ghost function Snapshot(zone: Zone?, ttl: nat, origin: Name): ParserState
    reads zone
  {
    ParserState(if zone == null then None else Some(zone.Flat()), ttl, origin)
  }

  /** The prefixes the loop tests on the line are prefixes of its first token. */
  lemma TrimmedStarts(line: string)
    requires line != "" && !IsSpace(line[0])
    ensures Tokens(line) != []
    ensures line[0] == ';' <==> StartsWith(Tokens(line)[0], ";")
    ensures line[0] == '$' <==> StartsWith(Tokens(line)[0], "$")
    ensures StartsWith(line, "$ORIGIN") <==> StartsWith(Tokens(line)[0], "$ORIGIN")
    ensures StartsWith(line, "$TTL") <==> StartsWith(Tokens(line)[0], "$TTL")
  {
    assert "" + line == line;
    FirstToken(line, "", ";");
    FirstToken(line, "", "$");
    FirstToken(line, "", "$ORIGIN");
    FirstToken(line, "", "$TTL");
  }

  lemma {:induction false} ErrorStays(st: ParserState, lines: seq<string>, i: nat, zoneOrigin: Name, arms: Arms)
    requires i <= |lines| && HandleLines(st, lines[..i], zoneOrigin, arms).Err?
    ensures HandleLines(st, lines, zoneOrigin, arms).Err?
    decreases |lines|
  {
    if i == |lines| {
      assert lines[..i] == lines;
    } else {
      var init := lines[..|lines| - 1];
      assert init[..i] == lines[..i];
      ErrorStays(st, init, i, zoneOrigin, arms);
    }
  }
}
