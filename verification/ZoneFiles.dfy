/** What zone files mean: layout does not matter, records before the first SOA are dropped, and
  * printed zones read back. */
module ZoneFiles {
  import opened Wrappers
  import opened Names
  import opened Records
  import opened RecordLog
  import opened FlatZones
  import opened Text
  import opened NameText
  import opened ZonePreprocessor
  import opened ZoneParser

  lemma {:induction false} HandleLinesConcat(
    st: ParserState, a: seq<string>, b: seq<string>, origin: Name, arms: Arms)
    ensures HandleLines(st, a + b, origin, arms) ==
            match HandleLines(st, a, origin, arms)
            case Err => Err
            case Ok(mid) => HandleLines(mid, b, origin, arms)
  {
    if b == [] {
      assert a + b == a;
    } else {
      assert (a + b)[..|a + b| - 1] == a + b[..|b| - 1];
      HandleLinesConcat(st, a, b[..|b| - 1], origin, arms);
    }
  }

  // ----- layout -----

  /** Lines that read alike one by one read alike together. */
  predicate SameReading(a: seq<string>, b: seq<string>) {
    && |a| <= 1 && |b| <= 1
    && (if a == [] then [] else Tokens(a[0])) == (if b == [] then [] else Tokens(b[0]))
  }

  lemma SameReadingHandled(
    st: ParserState, a: seq<string>, b: seq<string>, origin: Name, arms: Arms)
    requires SameReading(a, b)
    ensures HandleLines(st, a, origin, arms) == HandleLines(st, b, origin, arms)
  {
    assert a != [] ==> a[..0] == [];
    assert b != [] ==> b[..0] == [];
    assert a != [] ==> HandleLines(st, a, origin, arms) == HandleLine(st, Tokens(a[0]), origin, arms);
    assert b != [] ==> HandleLines(st, b, origin, arms) == HandleLine(st, Tokens(b[0]), origin, arms);
  }

  lemma GroupReadsAsLine(group: seq<string>, single: string)
    requires IsGroup(group)
    requires !Opens(single) && !Closes(single)
    requires Tokens(Visible(single)) == AllVisible(group)
    ensures EndsClosed(group) && EndsClosed([single])
    ensures SameReading(Processed(group), Processed([single]))
  {
    var joined := GroupBecomesLine(START, group);
    assert START.out + [joined] == [joined];
    SingleLine(single);
  }

  lemma SingleLine(single: string)
    requires !Opens(single) && !Closes(single)
    ensures EndsClosed([single]) && |Processed([single])| <= 1
    ensures (if Processed([single]) == [] then [] else Tokens(Processed([single])[0])) == Tokens(Visible(single))
  {
    PieceKind(single);
    PieceVisible(single);
    RunSnoc(START, [], single);
    assert [] + [single] == [single];
    assert Tokens("") == [];
  }

  /** Layout independence. A record spread over any number of lines, with its parentheses on
    * different lines and comments or blank lines anywhere between, leaves the whole file with
    * the same meaning as the record on one line. */
  lemma LayoutIndependent(
    before: seq<string>, group: seq<string>, single: string, after: seq<string>, origin: Name, arms: Arms)
    requires EndsClosed(before)
    requires IsGroup(group)
    requires !Opens(single) && !Closes(single)
    requires Tokens(Visible(single)) == AllVisible(group)
    ensures ZoneOf(before + group + after, origin, arms) == ZoneOf(before + [single] + after, origin, arms)
  {
    GroupReadsAsLine(group, single);
    Sandwich(before, group, after);
    Sandwich(before, [single], after);
    ReplaceMiddle(
      Begin(origin), Processed(before), Processed(group), Processed([single]), Processed(after), origin, arms);
  }

  lemma ReplaceMiddle(
    st: ParserState, front: seq<string>, a: seq<string>, b: seq<string>, back: seq<string>, origin: Name, arms: Arms)
    requires SameReading(a, b)
    ensures HandleLines(st, front + a + back, origin, arms) == HandleLines(st, front + b + back, origin, arms)
  {
    HandleLinesConcat(st, front + a, back, origin, arms);
    HandleLinesConcat(st, front + b, back, origin, arms);
    HandleLinesConcat(st, front, a, origin, arms);
    HandleLinesConcat(st, front, b, origin, arms);
    if HandleLines(st, front, origin, arms).Ok? {
      SameReadingHandled(HandleLines(st, front, origin, arms).value, a, b, origin, arms);
    }
  }

  lemma Sandwich(before: seq<string>, middle: seq<string>, after: seq<string>)
    requires EndsClosed(before) && EndsClosed(middle)
    ensures Processed(before + middle + after) == Processed(before) + Processed(middle) + Processed(after)
  {
    Distributes(before, middle + after);
    Distributes(middle, after);
    Regroup(before, middle, after);
    Regroup(Processed(before), Processed(middle), Processed(after));
  }

  // ----- the records a file keeps -----

  /** Every record of a file in order, with the running TTL and origin. */
  datatype Parsed = Parsed(records: seq<Record>, ttl: nat, origin: Name)

  function ParseOne(p: Parsed, toks: seq<string>, arms: Arms): Result<Parsed> {
    if IsSkipped(toks) then Ok(p)
    else if IsDirective(toks) then
      match Directive(ParserState(None, p.ttl, p.origin), toks)
      case Err => Err
      case Ok(st) => Ok(p.(ttl := st.ttl, origin := st.origin))
    else
      match RecordOf(toks, p.origin, p.ttl, arms)
      case Err => Err
      case Ok(None) => Ok(p)
      case Ok(Some(r)) => Ok(p.(records := p.records + [r]))
  }

  function ParseAll(lines: seq<string>, origin: Name, arms: Arms): Result<Parsed> {
    if lines == [] then Ok(Parsed([], DEFAULT_TTL, origin))
    else
      match ParseAll(lines[..|lines| - 1], origin, arms)
      case Err => Err
      case Ok(before) => ParseOne(before, Tokens(lines[|lines| - 1]), arms)
  }

  /** Wherever the TTL and the origin are these, the line is read as the record. */
  ghost predicate ReadsAs(line: string, r: Record, ttl: nat, o: Name, arms: Arms) {
    forall records :: ParseOne(Parsed(records, ttl, o), Tokens(line), arms) == Ok(Parsed(records + [r], ttl, o))
  }

  lemma {:induction false} AllRead(
    head: seq<string>, lines: seq<string>, records: seq<Record>, ttl: nat, o: Name, origin: Name, arms: Arms)
    requires ParseAll(head, origin, arms) == Ok(Parsed([], ttl, o)) && |lines| == |records|
    requires forall i :: 0 <= i < |lines| ==> ReadsAs(lines[i], records[i], ttl, o, arms)
    ensures ParseAll(head + lines, origin, arms) == Ok(Parsed(records, ttl, o))
  {
    if lines == [] {
      assert head + lines == head;
    } else {
      var k := |lines| - 1;
      AllRead(head, lines[..k], records[..k], ttl, o, origin, arms);
      LastApart(lines);
      LastApart(records);
      Regroup(head, lines[..k], [lines[k]]);
      OneMoreRead(head + lines[..k], lines[k], records[..k], records[k], ttl, o, origin, arms);
    }
  }

  lemma ReadFromStart(lines: seq<string>, records: seq<Record>, origin: Name, arms: Arms)
    requires |lines| == |records|
    requires forall i :: 0 <= i < |lines| ==> ReadsAs(lines[i], records[i], DEFAULT_TTL, origin, arms)
    ensures ParseAll(lines, origin, arms) == Ok(Parsed(records, DEFAULT_TTL, origin))
  {
    AllRead([], lines, records, DEFAULT_TTL, origin, origin, arms);
    assert [] + lines == lines;
  }

  lemma LastApart<T>(s: seq<T>)
    requires s != []
    ensures s == s[..|s| - 1] + [s[|s| - 1]]
  {
  }

  lemma OneMoreRead(
    lines: seq<string>, line: string, records: seq<Record>, r: Record, ttl: nat, o: Name, origin: Name, arms: Arms)
    requires ParseAll(lines, origin, arms) == Ok(Parsed(records, ttl, o)) && ReadsAs(line, r, ttl, o, arms)
    ensures ParseAll(lines + [line], origin, arms) == Ok(Parsed(records + [r], ttl, o))
  {
    assert (lines + [line])[..|lines|] == lines;
    assert ParseOne(Parsed(records, ttl, o), Tokens(line), arms) == Ok(Parsed(records + [r], ttl, o));
  }

  /** The zone begins at the first SOA; what stands before it is gone. */
  function FromSoa(records: seq<Record>, origin: Name): Option<FlatZone> {
    if records == [] then None
    else if records[0].rdata.Authority? then Some(FlatZone(origin, records[0].rdata.soa, records))
    else FromSoa(records[1..], origin)
  }

  lemma {:induction false} FromSoaSnoc(records: seq<Record>, r: Record, origin: Name)
    ensures FromSoa(records + [r], origin) == Keep(FromSoa(records, origin), origin, r)
  {
    if records == [] {
      assert records + [r] == [r];
      assert [r][1..] == [];
    } else if !records[0].rdata.Authority? {
      assert (records + [r])[1..] == records[1..] + [r];
      FromSoaSnoc(records[1..], r, origin);
    }
  }

  /** The zone of a file is exactly its records from the first SOA on, under the configured
    * origin; a file without an SOA, or with a line that does not parse anywhere, is rejected. */
  lemma {:induction false} ZoneIsFromSoa(lines: seq<string>, origin: Name, arms: Arms)
    ensures HandleLines(Begin(origin), lines, origin, arms) ==
            match ParseAll(lines, origin, arms)
            case Err => Err
            case Ok(p) => Ok(ParserState(FromSoa(p.records, origin), p.ttl, p.origin))
  {
    if lines != [] {
      var init := lines[..|lines| - 1];
      ZoneIsFromSoa(init, origin, arms);
      if ParseAll(init, origin, arms).Ok? {
        OneLineAgrees(ParseAll(init, origin, arms).value, Tokens(lines[|lines| - 1]), origin, arms);
      }
    }
  }

  lemma OneLineAgrees(p: Parsed, toks: seq<string>, origin: Name, arms: Arms)
    ensures HandleLine(ParserState(FromSoa(p.records, origin), p.ttl, p.origin), toks, origin, arms) ==
            match ParseOne(p, toks, arms)
            case Err => Err
            case Ok(q) => Ok(ParserState(FromSoa(q.records, origin), q.ttl, q.origin))
  {
    if !IsSkipped(toks) && !IsDirective(toks) {
      match RecordOf(toks, p.origin, p.ttl, arms)
      case Ok(Some(r)) => FromSoaSnoc(p.records, r, origin);
      case _ =>
    }
  }

  // ----- printing -----

  function TypeName(d: RData): string {
    match d
    case Address(_, _, _, _) => "A"
    case NameServer(_) => "NS"
    case Alias(_) => "CNAME"
    case Pointer(_) => "PTR"
    case Exchange(_, _) => "MX"
    case Service(_, _, _, _) => "SRV"
    case Authority(_) => "SOA"
    case _ => "?"
  }

  function DataWords(d: RData): seq<string> {
    match d
    case Address(a, b, c, e) => [PrintNat(a) + "." + PrintNat(b) + "." + PrintNat(c) + "." + PrintNat(e)]
    case NameServer(n) => [PrintName(n)]
    case Alias(n) => [PrintName(n)]
    case Pointer(n) => [PrintName(n)]
    case Exchange(preference, n) => [PrintNat(preference), PrintName(n)]
    case Service(priority, weight, port, n) =>
      [PrintNat(priority), PrintNat(weight), PrintNat(port), PrintName(n)]
    case Authority(soa) =>
      [PrintName(soa.mname), PrintName(soa.rname), PrintNat(soa.serial), PrintInt(soa.refresh),
       PrintInt(soa.retry), PrintInt(soa.expire), PrintNat(soa.minimum)]
    case _ => []
  }

  predicate PrintableName(n: Name) {
    PlainName(n) && ValidName(n)
  }

  predicate IsI32(n: int) {
    -0x8000_0000 <= n < 0x8000_0000
  }

  predicate PrintableData(d: RData) {
    match d
    case Address(_, _, _, _) => true
    case NameServer(n) => PrintableName(n)
    case Alias(n) => PrintableName(n)
    case Pointer(n) => PrintableName(n)
    case Exchange(preference, n) => preference < U16 && PrintableName(n)
    case Service(priority, weight, port, n) =>
      priority < U16 && weight < U16 && port < U16 && PrintableName(n)
    case Authority(soa) =>
      && PrintableName(soa.mname) && PrintableName(soa.rname) && soa.serial < U32
      && IsI32(soa.refresh) && IsI32(soa.retry) && IsI32(soa.expire) && soa.minimum < U32
    case _ => false
  }

  predicate Printable(r: Record) {
    PrintableName(r.owner) && r.ttl < U32 && PrintableData(r.rdata)
  }

  /** What may stand between owner and type (section 5.1 of RFC 1035). */
  datatype Spelling = NoFields | TtlOnly | ClassOnly | TtlClass | ClassTtl

  function FieldWords(spelling: Spelling, ttl: nat): seq<string> {
    match spelling
    case NoFields => []
    case TtlOnly => [PrintNat(ttl)]
    case ClassOnly => ["IN"]
    case TtlClass => [PrintNat(ttl), "IN"]
    case ClassTtl => ["IN", PrintNat(ttl)]
  }

  /** The record as tokens. */
  function SpelledWords(r: Record, spelling: Spelling): seq<string> {
    [PrintName(r.owner)] + FieldWords(spelling, r.ttl) + [TypeName(r.rdata)] + DataWords(r.rdata)
  }

  function RecordWords(r: Record): seq<string> {
    SpelledWords(r, TtlClass)
  }

  lemma ParsePrintedOctet(n: Octet)
    ensures IsOctetText(PrintNat(n)) && Value(PrintNat(n)) == n && '.' !in PrintNat(n)
  {
    PrintNatValue(n);
    if n >= 10 {
      assert PrintNat(n) == PrintNat(n / 10) + [Digit(n % 10)];
      if n >= 100 {
        assert PrintNat(n / 10) == PrintNat(n / 10 / 10) + [Digit(n / 10 % 10)];
      }
    }
  }

  lemma ParsePrintedAddress(a: Octet, b: Octet, c: Octet, d: Octet)
    ensures ParseAddress(DataWords(Address(a, b, c, d))[0]) == Some(Address(a, b, c, d))
  {
    ParsePrintedOctet(a);
    ParsePrintedOctet(b);
    ParsePrintedOctet(c);
    ParsePrintedOctet(d);
    var w, x, y, z := PrintNat(a), PrintNat(b), PrintNat(c), PrintNat(d);
    assert w + "." + x + "." + y + "." + z == w + "." + (x + "." + (y + "." + z));
    SplitFirst(w, x + "." + (y + "." + z));
    SplitFirst(x, y + "." + z);
    SplitFirst(y, z);
    SplitWhole(z);
  }

  lemma ParsePrintedDomainName(n: Name, origin: Name)
    requires PrintableName(n)
    ensures ParseDomainName(PrintName(n), origin) == Some(n)
  {
    ParsePrintedName(n);
  }

  /** Data prints and parses back, under any origin. */
  lemma ParsePrintedData(d: RData, origin: Name, arms: Arms)
    requires PrintableData(d)
    ensures ParseData(TypeName(d), DataWords(d), origin, arms) == Ok(Some(d))
  {
    match d
    case Address(a, b, c, e) => ParsePrintedAddress(a, b, c, e);
    case Exchange(_, _) => ParsePrintedNumbered(d, origin);
    case Service(_, _, _, _) => ParsePrintedNumbered(d, origin);
    case Authority(soa) => ParsePrintedSoa(soa, origin);
    case _ => ParsePrintedHost(d, origin, arms);
  }

  lemma ParsePrintedHost(d: RData, origin: Name, arms: Arms)
    requires PrintableData(d) && (d.NameServer? || d.Alias? || d.Pointer?)
    ensures ParseData(TypeName(d), DataWords(d), origin, arms) == Ok(Some(d))
  {
    match d
    case NameServer(n) => ParsePrintedDomainName(n, origin);
    case Alias(n) => ParsePrintedDomainName(n, origin);
    case Pointer(n) => ParsePrintedDomainName(n, origin);
  }

  lemma ParsePrintedNumbered(d: RData, origin: Name)
    requires PrintableData(d)
    ensures d.Exchange? ==> ParseExchange(DataWords(d), origin) == Some(d)
    ensures d.Service? ==> ParseService(DataWords(d), origin) == Some(d)
  {
    match d
    case Exchange(preference, n) =>
      ParsePrintedNat(preference, U16);
      ParsePrintedDomainName(n, origin);
    case Service(priority, weight, port, n) =>
      ParsePrintedNat(priority, U16);
      ParsePrintedNat(weight, U16);
      ParsePrintedNat(port, U16);
      ParsePrintedDomainName(n, origin);
    case _ =>
  }

  lemma ParsePrintedSoa(soa: SoaData, origin: Name)
    requires PrintableData(Authority(soa))
    ensures ParseSoa(DataWords(Authority(soa)), origin) == Some(Authority(soa))
  {
    ParsePrintedDomainName(soa.mname, origin);
    ParsePrintedDomainName(soa.rname, origin);
    ParsePrintedNat(soa.serial, U32);
    ParsePrintedInt(soa.refresh);
    ParsePrintedInt(soa.retry);
    ParsePrintedInt(soa.expire);
    ParsePrintedNat(soa.minimum, U32);
  }

  predicate HasTtl(spelling: Spelling) {
    spelling.TtlOnly? || spelling.TtlClass? || spelling.ClassTtl?
  }

  /** A spelled record is read back exactly when it has at least four tokens and no TTL after its
    * class. In all other cases it is dropped in silence: records with one data token (A, NS,
    * CNAME, PTR) when TTL and class are both left out, and all records whose class comes first,
    * because their TTL is then taken for a type. */
  lemma SpelledRecordExact(r: Record, spelling: Spelling, origin: Name, defaultTtl: nat, arms: Arms)
    requires Printable(r)
    ensures var read := RecordOf(SpelledWords(r, spelling), origin, defaultTtl, arms);
            if spelling.ClassTtl? || |SpelledWords(r, spelling)| < 4 then read == Ok(None)
            else read == Ok(Some(if HasTtl(spelling) then r else r.(ttl := defaultTtl)))
    ensures |SpelledWords(r, spelling)| < 4 <==> spelling.NoFields? && |DataWords(r.rdata)| == 1
  {
    assert |DataWords(r.rdata)| >= 1;
    var words := SpelledWords(r, spelling);
    if |words| >= 4 {
      OwnerSpelled(r, spelling, origin);
      var f := FieldsOf(words, defaultTtl);
      RecordOfParts(words, origin, defaultTtl, arms, r.owner);
      if spelling.ClassTtl? {
        ClassFirstData(r, origin, defaultTtl, arms);
      } else {
        FieldsSpelled(r, spelling, defaultTtl);
        ParsePrintedData(r.rdata, origin, arms);
      }
    }
  }

  lemma RecordOfParts(parts: seq<string>, origin: Name, defaultTtl: nat, arms: Arms, name: Name)
    requires |parts| >= 4 && OwnerName(parts[0], origin) == Some(name)
    ensures var f := FieldsOf(parts, defaultTtl);
            RecordOf(parts, origin, defaultTtl, arms) ==
            match ParseData(parts[f.typeAt], parts[f.typeAt + 1..], origin, arms)
            case Err => Err
            case Ok(None) => Ok(None)
            case Ok(Some(rdata)) => Ok(Some(Record(name, f.ttl, rdata)))
  {
  }

  lemma ClassFirstData(r: Record, origin: Name, defaultTtl: nat, arms: Arms)
    requires Printable(r) && |SpelledWords(r, ClassTtl)| >= 4
    ensures var words := SpelledWords(r, ClassTtl);
            var f := FieldsOf(words, defaultTtl);
            ParseData(words[f.typeAt], words[f.typeAt + 1..], origin, arms) == Ok(None)
  {
    var words := SpelledWords(r, ClassTtl);
    FieldsSpelled(r, ClassTtl, defaultTtl);
    PrintNatValue(r.ttl);
    NumberIsNoType(PrintNat(r.ttl), words[3..], origin, arms);
  }

  lemma FieldsSpelled(r: Record, spelling: Spelling, defaultTtl: nat)
    requires Printable(r) && |SpelledWords(r, spelling)| >= 4
    ensures var words := SpelledWords(r, spelling);
            var f := FieldsOf(words, defaultTtl);
            if spelling.ClassTtl? then words[f.typeAt] == PrintNat(r.ttl) && f.typeAt == 2
            else
              && f.ttl == (if HasTtl(spelling) then r.ttl else defaultTtl)
              && words[f.typeAt] == TypeName(r.rdata) && words[f.typeAt + 1..] == DataWords(r.rdata)
  {
    ParsePrintedNat(r.ttl, U32);
    TypeNamesAreNotNumbers(r.rdata);
    var words, skip := SpelledWords(r, spelling), 1 + |FieldWords(spelling, r.ttl)|;
    assert words[skip] == TypeName(r.rdata) && words[skip + 1..] == DataWords(r.rdata);
  }

  lemma OwnerSpelled(r: Record, spelling: Spelling, origin: Name)
    requires Printable(r)
    ensures OwnerName(SpelledWords(r, spelling)[0], origin) == Some(r.owner)
  {
    ParsePrintedName(r.owner);
    OwnerIsDomainName(PrintName(r.owner), origin);
  }

  lemma NumberIsNoType(rtype: string, args: seq<string>, origin: Name, arms: Arms)
    requires rtype != "" && IsDigit(rtype[0])
    ensures ParseData(rtype, args, origin, arms) == Ok(None)
  {
  }

  /** Two legal lines that are dropped. */
  lemma DroppedLines(arms: Arms)
    ensures RecordOf(["w.", "A", "192.0.2.1"], ROOT, 60, arms) == Ok(None)
    ensures RecordOf(["w.", "IN", "60", "A", "192.0.2.1"], ROOT, 60, arms) == Ok(None)
  {
    var owner: Name := ["w"];
    assert Lower("w") == "w";
    assert owner[1..] == [] && WireLength(owner) == 1 + 1 + WireLength(owner[1..]);
    assert PrintName(owner) == "w.";
    ParsePrintedName(owner);
    OwnerIsDomainName("w.", ROOT);
    assert "IN"[0] in "IN";
    NumberIsNoType("60", ["A", "192.0.2.1"], ROOT, arms);
    assert ["w.", "IN", "60", "A", "192.0.2.1"][3..] == ["A", "192.0.2.1"];
  }

  lemma TypeNamesAreNotNumbers(d: RData)
    requires PrintableData(d)
    ensures ParseUnsigned(TypeName(d), U32) == None && ParseUnsigned("IN", U32) == None
    ensures TypeName(d) != "IN"
  {
    assert TypeName(d)[0] in TypeName(d) && "IN"[0] in "IN";
  }

  // ----- the print/parse round trip -----

  function PrintZone(records: seq<Record>): string {
    if records == [] then ""
    else Spaced(RecordWords(records[0])) + "\n" + PrintZone(records[1..])
  }

  /** A word of a printed record: visible, and without the characters `;` `(` `)` `$` `"`. */
  predicate IsSafe(w: string) {
    w != "" && forall c :: c in w ==> PlainChar(c) || c == '.'
  }

  lemma SafeNat(n: nat)
    ensures IsSafe(PrintNat(n))
  {
    PrintNatValue(n);
  }

  lemma SafeInt(n: int)
    ensures IsSafe(PrintInt(n))
  {
    SafeNat(if n < 0 then -n else n);
  }

  lemma SafeName(n: Name)
    requires PlainName(n)
    ensures IsSafe(PrintName(n))
  {
    if n != ROOT {
      DottedPlain(n);
      DottedEnds(n);
    }
  }

  lemma SafeData(d: RData)
    requires PrintableData(d)
    ensures forall w :: w in DataWords(d) ==> IsSafe(w)
  {
    match d
    case Address(a, b, c, e) =>
      SafeNat(a);
      SafeNat(b);
      SafeNat(c);
      SafeNat(e);
    case NameServer(n) => SafeName(n);
    case Alias(n) => SafeName(n);
    case Pointer(n) => SafeName(n);
    case Exchange(preference, n) =>
      SafeNat(preference);
      SafeName(n);
    case Service(priority, weight, port, n) =>
      SafeNat(priority);
      SafeNat(weight);
      SafeNat(port);
      SafeName(n);
    case Authority(soa) =>
      SafeName(soa.mname);
      SafeName(soa.rname);
      SafeNat(soa.serial);
      SafeInt(soa.refresh);
      SafeInt(soa.retry);
      SafeInt(soa.expire);
      SafeNat(soa.minimum);
  }

  lemma SafeRecord(r: Record)
    requires Printable(r)
    ensures forall w :: w in RecordWords(r) ==> IsSafe(w)
  {
    SafeName(r.owner);
    SafeNat(r.ttl);
    SafeData(r.rdata);
  }

  lemma {:induction false} SpacedChars(words: seq<string>)
    requires forall w :: w in words ==> IsSafe(w)
    ensures forall c :: c in Spaced(words) ==> PlainChar(c) || c == '.' || c == ' '
  {
    if words != [] {
      var init, last := words[..|words| - 1], words[|words| - 1];
      assert words == init + [last] && last in words;
      SpacedChars(init);
      assert Spaced(words) == Spaced(init) + last + " ";
    }
  }

  /** A line without special characters is taken as it is. */
  lemma SafeLine(line: string)
    requires forall c :: c in line ==> PlainChar(c) || c == '.' || c == ' '
    ensures '\n' !in line && StripReturn(line) == line
    ensures ToPiece(line) == Plain(Trim(line))
  {
    assert StripComment(line) == line;
    forall c | c == '(' || c == ')' ensures c !in Trim(line) {
      TrimStartKeeps(line, c);
      TrimEndKeeps(TrimStart(line), c);
    }
    if line != "" {
      assert line[|line| - 1] in line;
    }
  }

  lemma PrintedChars(r: Record)
    requires Printable(r)
    ensures forall c :: c in Spaced(RecordWords(r)) ==> PlainChar(c) || c == '.' || c == ' '
  {
    SafeRecord(r);
    SpacedChars(RecordWords(r));
  }

  /** A printed record is one plain line with the record's words as its tokens. */
  lemma PrintedLine(r: Record)
    requires Printable(r)
    ensures var line := Spaced(RecordWords(r));
            && ToPiece(line) == Plain(Trim(line)) && Trim(line) != ""
            && Tokens(Trim(line)) == RecordWords(r)
  {
    var words := RecordWords(r);
    PrintedChars(r);
    SafeLine(Spaced(words));
    SafeRecord(r);
    forall w | w in words ensures IsWord(w) {
      assert IsSafe(w);
    }
    TokensSpaced(words);
    TokensTrim(Spaced(words));
    TokensEmpty(Spaced(words));
  }

  function PrintedLines(records: seq<Record>): (lines: seq<string>)
    ensures |lines| == |records|
  {
    seq(|records|, i requires 0 <= i < |records| => Spaced(RecordWords(records[i])))
  }

  predicate AllPrintable(records: seq<Record>) {
    forall r :: r in records ==> Printable(r)
  }

  lemma {:induction false} LinesOfPrinted(records: seq<Record>)
    requires AllPrintable(records)
    ensures Lines(PrintZone(records)) == PrintedLines(records)
  {
    if records != [] {
      FirstLinePrinted(records[0], PrintZone(records[1..]));
      LinesOfPrinted(records[1..]);
      assert PrintedLines(records) == [Spaced(RecordWords(records[0]))] + PrintedLines(records[1..]);
    }
  }

  lemma FirstLinePrinted(r: Record, rest: string)
    requires Printable(r)
    ensures Lines(Spaced(RecordWords(r)) + "\n" + rest) == [Spaced(RecordWords(r))] + Lines(rest)
  {
    PrintedChars(r);
    SafeLine(Spaced(RecordWords(r)));
    LinesFirst(Spaced(RecordWords(r)), rest);
  }

  lemma {:induction false} PlainRun(pieces: seq<Piece>)
    requires forall i :: 0 <= i < |pieces| ==> pieces[i].Plain? && pieces[i].text != ""
    ensures var s := Run(START, pieces);
            && s.acc == "" && !s.open && |s.out| == |pieces|
            && forall i :: 0 <= i < |pieces| ==> s.out[i] == pieces[i].text
  {
    if pieces != [] {
      PlainRun(pieces[..|pieces| - 1]);
    }
  }

  lemma ProcessedPrinted(records: seq<Record>)
    requires AllPrintable(records)
    ensures var out := Processed(PrintedLines(records));
            && |out| == |records|
            && forall i :: 0 <= i < |records| ==> Tokens(out[i]) == RecordWords(records[i])
  {
    var pieces := ToPieces(PrintedLines(records));
    forall i | 0 <= i < |records|
      ensures pieces[i].Plain? && pieces[i].text != "" && Tokens(pieces[i].text) == RecordWords(records[i])
    {
      assert records[i] in records;
      PieceAt(PrintedLines(records), i);
      PrintedLine(records[i]);
    }
    PlainRun(pieces);
  }

  lemma ParseAllPrinted(lines: seq<string>, records: seq<Record>, origin: Name, arms: Arms)
    requires AllPrintable(records) && |lines| == |records|
    requires forall i :: 0 <= i < |records| ==> Tokens(lines[i]) == RecordWords(records[i])
    ensures ParseAll(lines, origin, arms) == Ok(Parsed(records, DEFAULT_TTL, origin))
  {
    AllPrintedRead(lines, records, origin, arms);
    ReadFromStart(lines, records, origin, arms);
  }

  lemma AllPrintedRead(lines: seq<string>, records: seq<Record>, origin: Name, arms: Arms)
    requires AllPrintable(records) && |lines| == |records|
    requires forall i :: 0 <= i < |records| ==> Tokens(lines[i]) == RecordWords(records[i])
    ensures forall i :: 0 <= i < |lines| ==> ReadsAs(lines[i], records[i], DEFAULT_TTL, origin, arms)
  {
    forall i | 0 <= i < |lines| ensures ReadsAs(lines[i], records[i], DEFAULT_TTL, origin, arms) {
      assert records[i] in records;
      PrintedReads(lines[i], records[i], DEFAULT_TTL, origin, arms);
    }
  }

  lemma PrintedReads(line: string, r: Record, ttl: nat, o: Name, arms: Arms)
    requires Printable(r) && Tokens(line) == RecordWords(r)
    ensures ReadsAs(line, r, ttl, o, arms)
  {
    forall records ensures ParseOne(Parsed(records, ttl, o), Tokens(line), arms) == Ok(Parsed(records + [r], ttl, o)) {
      ParseOnePrinted(Parsed(records, ttl, o), r, arms);
    }
  }

  lemma ParseOnePrinted(p: Parsed, r: Record, arms: Arms)
    requires Printable(r)
    ensures ParseOne(p, RecordWords(r), arms) == Ok(p.(records := p.records + [r]))
  {
    var words := RecordWords(r);
    SpelledRecordExact(r, TtlClass, p.origin, p.ttl, arms);
    SafeName(r.owner);
    assert words[0] == PrintName(r.owner);
    assert words[0][0] in words[0];
  }

  /** The round trip: printing any records and parsing the text yields the zone that starts at
    * their first SOA; for an SOA-first list, all of them, so every lookup agrees. */
  lemma PrintParse(records: seq<Record>, origin: Name, arms: Arms)
    requires AllPrintable(records)
    ensures ZoneOf(Lines(PrintZone(records)), origin, arms) == ToResult(FromSoa(records, origin))
    ensures records != [] && records[0].rdata.Authority? ==>
              ZoneOf(Lines(PrintZone(records)), origin, arms)
              == Ok(FlatZone(origin, records[0].rdata.soa, records))
  {
    LinesOfPrinted(records);
    ProcessedPrinted(records);
    var out := Processed(PrintedLines(records));
    ParseAllPrinted(out, records, origin, arms);
    ZoneIsFromSoa(out, origin, arms);
  }

  // ----- comments, directives and bad lines -----

  /** Adding a comment to any line of a file, or changing one, changes no zone. */
  lemma CommentIgnored(before: seq<string>, a: string, b: string, after: seq<string>, origin: Name, arms: Arms)
    requires ';' !in a && multiset(a)['"'] % 2 == 0
    ensures ZoneOf(before + [a + ";" + b] + after, origin, arms) == ZoneOf(before + [a] + after, origin, arms)
  {
    CommentInvisible(before, a, b, after);
  }

  lemma TtlDirective(p: Parsed, n: nat, arms: Arms)
    requires n < U32
    ensures ParseOne(p, ["$TTL", PrintNat(n)], arms) == Ok(p.(ttl := n))
  {
    ParsePrintedNat(n, U32);
    DirectiveWords();
  }

  lemma DirectiveWords()
    ensures StartsWith("$TTL", "$") && !StartsWith("$TTL", ";") && StartsWith("$TTL", "$TTL")
    ensures !StartsWith("$TTL", "$ORIGIN")
    ensures StartsWith("$ORIGIN", "$") && !StartsWith("$ORIGIN", ";") && StartsWith("$ORIGIN", "$ORIGIN")
  {
    assert "$TTL"[..1] == "$" && "$ORIGIN"[..1] == "$";
    assert ";"[0] == ';' && "$TTL"[0] == '$' && "$ORIGIN"[0] == '$';
  }

  function Timed(records: seq<Record>, ttl: nat): seq<Record> {
    seq(|records|, i requires 0 <= i < |records| => records[i].(ttl := ttl))
  }

  /** Records without a TTL of their own get that of the `$TTL` line before them, or 3600. */
  lemma DefaultTtlApplies(
    head: seq<string>, n: nat, lines: seq<string>, records: seq<Record>, origin: Name, arms: Arms)
    requires |head| <= 1 && n < U32 && (head != [] ==> Tokens(head[0]) == ["$TTL", PrintNat(n)])
    requires AllPrintable(records) && |lines| == |records|
    requires forall i :: 0 <= i < |lines| ==> Tokens(lines[i]) == SpelledWords(records[i], ClassOnly)
    ensures var ttl := if head == [] then 3600 else n;
            HandleLines(Begin(origin), head + lines, origin, arms)
            == Ok(ParserState(FromSoa(Timed(records, ttl), origin), ttl, origin))
  {
    DefaultTtlParsed(head, n, lines, records, origin, arms);
    ZoneIsFromSoa(head + lines, origin, arms);
  }

  lemma DefaultTtlParsed(
    head: seq<string>, n: nat, lines: seq<string>, records: seq<Record>, origin: Name, arms: Arms)
    requires |head| <= 1 && n < U32 && (head != [] ==> Tokens(head[0]) == ["$TTL", PrintNat(n)])
    requires AllPrintable(records) && |lines| == |records|
    requires forall i :: 0 <= i < |lines| ==> Tokens(lines[i]) == SpelledWords(records[i], ClassOnly)
    ensures var ttl := if head == [] then 3600 else n;
            ParseAll(head + lines, origin, arms) == Ok(Parsed(Timed(records, ttl), ttl, origin))
  {
    var ttl := if head == [] then 3600 else n;
    var timed := Timed(records, ttl);
    HeadParsed(head, n, origin, arms);
    forall i | 0 <= i < |lines| ensures ReadsAs(lines[i], timed[i], ttl, origin, arms) {
      assert records[i] in records;
      UntimedReads(lines[i], records[i], ttl, origin, arms);
    }
    AllRead(head, lines, timed, ttl, origin, origin, arms);
  }

  lemma UntimedReads(line: string, r: Record, ttl: nat, o: Name, arms: Arms)
    requires Printable(r) && Tokens(line) == SpelledWords(r, ClassOnly)
    ensures ReadsAs(line, r.(ttl := ttl), ttl, o, arms)
  {
    forall records
      ensures ParseOne(Parsed(records, ttl, o), Tokens(line), arms)
              == Ok(Parsed(records + [r.(ttl := ttl)], ttl, o))
    {
      UntimedRecord(Parsed(records, ttl, o), r, arms);
    }
  }

  lemma HeadParsed(head: seq<string>, n: nat, origin: Name, arms: Arms)
    requires |head| <= 1 && n < U32 && (head != [] ==> Tokens(head[0]) == ["$TTL", PrintNat(n)])
    ensures ParseAll(head, origin, arms) == Ok(Parsed([], if head == [] then 3600 else n, origin))
  {
    if head != [] {
      assert head[..0] == [];
      TtlDirective(Parsed([], DEFAULT_TTL, origin), n, arms);
    }
  }

  lemma UntimedRecord(p: Parsed, r: Record, arms: Arms)
    requires Printable(r)
    ensures ParseOne(p, SpelledWords(r, ClassOnly), arms) == Ok(p.(records := p.records + [r.(ttl := p.ttl)]))
  {
    var words := SpelledWords(r, ClassOnly);
    SpelledRecordExact(r, ClassOnly, p.origin, p.ttl, arms);
    SafeName(r.owner);
    assert words[0] == PrintName(r.owner);
    assert words[0][0] in words[0];
  }

  lemma OriginDirective(p: Parsed, o: Name, arms: Arms)
    requires PrintableName(o)
    ensures ParseOne(p, ["$ORIGIN", PrintName(o)], arms) == Ok(p.(origin := o))
  {
    ParsePrintedName(o);
    DirectiveWords();
  }

  /** After an `$ORIGIN` line, records are read with their owners below that origin. */
  lemma OriginApplies(p: Parsed, o: Name, prefix: Name, r: Record, arms: Arms)
    requires PrintableName(o) && o != ROOT && prefix != [] && PlainName(prefix)
    requires Printable(r) && r.owner == prefix + o
    ensures var q := p.(origin := o);
            && ParseOne(p, ["$ORIGIN", PrintName(o)], arms) == Ok(q)
            && ParseOne(q, [Relative(prefix)] + RecordWords(r)[1..], arms) == Ok(q.(records := p.records + [r]))
  {
    OriginDirective(p, o, arms);
    SpellingsAgree(prefix, o);
    RelativeStarts(prefix);
    OwnerSpelledAs(p.(origin := o), Relative(prefix), r, arms);
  }

  lemma RelativeStarts(prefix: Name)
    requires prefix != [] && PlainName(prefix)
    ensures !StartsWith(Relative(prefix), ";") && !StartsWith(Relative(prefix), "$")
  {
    DottedShape(prefix);
  }

  /** The owner may be spelled in any way that denotes it. */
  lemma OwnerSpelledAs(p: Parsed, w: string, r: Record, arms: Arms)
    requires Printable(r) && OwnerName(w, p.origin) == Some(r.owner)
    requires !StartsWith(w, ";") && !StartsWith(w, "$")
    ensures ParseOne(p, [w] + RecordWords(r)[1..], arms) == Ok(p.(records := p.records + [r]))
  {
    var words, spelled := RecordWords(r), [w] + RecordWords(r)[1..];
    FieldsSpelled(r, TtlClass, p.ttl);
    ParsePrintedData(r.rdata, p.origin, arms);
    assert spelled[1..] == words[1..];
    FieldsAfterOwner(words, spelled, p.ttl);
    RecordOfParts(spelled, p.origin, p.ttl, arms, r.owner);
  }

  /** The fields do not depend on the owner's spelling. */
  lemma FieldsAfterOwner(a: seq<string>, b: seq<string>, defaultTtl: nat)
    requires |a| >= 4 && |b| >= 4 && a[1..] == b[1..]
    ensures var f := FieldsOf(a, defaultTtl);
            && FieldsOf(b, defaultTtl) == f
            && a[f.typeAt] == b[f.typeAt] && a[f.typeAt + 1..] == b[f.typeAt + 1..]
  {
    assert a[1] == a[1..][0] && b[1] == b[1..][0];
    assert a[2] == a[1..][1] && b[2] == b[1..][1];
    assert a[3] == a[1..][2] && b[3] == b[1..][2];
    var k := FieldsOf(a, defaultTtl).typeAt;
    assert a[k + 1..] == a[1..][k..] && b[k + 1..] == b[1..][k..];
  }

  /** Addresses have one spelling: four decimal octets without leading zeros. */
  lemma AddressExact(s: string)
    ensures ParseAddress(s).Some? <==> exists a, b, c, d :: IsQuad(s, a, b, c, d)
    ensures forall a, b, c, d :: IsQuad(s, a, b, c, d) ==> ParseAddress(s) == Some(Address(a, b, c, d))
  {
    forall a, b, c, d | IsQuad(s, a, b, c, d) ensures ParseAddress(s) == Some(Address(a, b, c, d)) {
      ParsePrintedAddress(a, b, c, d);
    }
    if ParseAddress(s).Some? {
      var p := Split(s);
      SplitJoined(s);
      OctetPrinted(p[0]);
      OctetPrinted(p[1]);
      OctetPrinted(p[2]);
      OctetPrinted(p[3]);
      FourJoined(p);
      assert IsQuad(s, Value(p[0]), Value(p[1]), Value(p[2]), Value(p[3]));
    }
  }

  ghost predicate IsQuad(s: string, a: Octet, b: Octet, c: Octet, d: Octet) {
    s == PrintNat(a) + "." + PrintNat(b) + "." + PrintNat(c) + "." + PrintNat(d)
  }

  lemma FourJoined(p: seq<string>)
    requires |p| == 4
    ensures Joined(p) == p[0] + "." + p[1] + "." + p[2] + "." + p[3]
  {
    assert p[1..][1..] == p[2..] && p[2..][1..] == p[3..];
    assert Joined(p[3..]) == p[3];
    assert Joined(p[2..]) == p[2] + "." + p[3];
    assert Joined(p[1..]) == p[1] + "." + (p[2] + "." + p[3]);
  }

  lemma OctetPrinted(s: string)
    requires IsOctetText(s)
    ensures s == PrintNat(Value(s))
  {
    if |s| == 1 {
      ValueOfDigit(s);
    } else {
      DigitsPrinted(s);
    }
  }

  /** Data of one token that do not parse, under any origin. */
  ghost predicate IsBadData(rtype: string, w: string) {
    || (rtype == "A" && forall a, b, c, d :: !IsQuad(w, a, b, c, d))
    || ((rtype == "NS" || rtype == "CNAME" || rtype == "PTR") && EndsWithDot(w) && ParseName(w) == None)
  }

  /** A record line with such data rejects the whole file, wherever it stands. */
  lemma BadDataRejects(
    lines: seq<string>, i: nat, owner: Name, ttl: nat, rtype: string, w: string, origin: Name, arms: Arms)
    requires i < |lines| && PrintableName(owner) && ttl < U32 && IsBadData(rtype, w)
    requires Tokens(lines[i]) == [PrintName(owner), PrintNat(ttl), "IN", rtype, w]
    ensures HandleLines(Begin(origin), lines, origin, arms) == Err
  {
    forall st ensures HandleLine(st, Tokens(lines[i]), origin, arms) == Err {
      BadLineErr(st, owner, ttl, rtype, w, origin, arms);
    }
    BadLineRejects(lines, i, origin, arms);
  }

  lemma BadLineRejects(lines: seq<string>, i: nat, origin: Name, arms: Arms)
    requires i < |lines| && forall st :: HandleLine(st, Tokens(lines[i]), origin, arms) == Err
    ensures HandleLines(Begin(origin), lines, origin, arms) == Err
  {
    assert lines[..i + 1][..i] == lines[..i];
    ErrorStays(Begin(origin), lines, i + 1, origin, arms);
  }

  lemma BadLineErr(
    st: ParserState, owner: Name, ttl: nat, rtype: string, w: string, origin: Name, arms: Arms)
    requires PrintableName(owner) && ttl < U32 && IsBadData(rtype, w)
    ensures HandleLine(st, [PrintName(owner), PrintNat(ttl), "IN", rtype, w], origin, arms) == Err
  {
    BadDataErr(owner, ttl, rtype, w, st.origin, st.ttl, arms);
    SafeName(owner);
    assert PrintName(owner)[0] in PrintName(owner);
  }

  lemma BadDataErr(
    owner: Name, ttl: nat, rtype: string, w: string, origin: Name, defaultTtl: nat, arms: Arms)
    requires PrintableName(owner) && ttl < U32 && IsBadData(rtype, w)
    ensures RecordOf([PrintName(owner), PrintNat(ttl), "IN", rtype, w], origin, defaultTtl, arms) == Err
  {
    var parts := [PrintName(owner), PrintNat(ttl), "IN", rtype, w];
    ParsePrintedName(owner);
    OwnerIsDomainName(PrintName(owner), origin);
    ParsePrintedNat(ttl, U32);
    FieldsOfFive(parts, ttl, defaultTtl);
    RecordOfParts(parts, origin, defaultTtl, arms, owner);
    BadDataParsed(rtype, w, origin, arms);
  }

  lemma FieldsOfFive(parts: seq<string>, ttl: nat, defaultTtl: nat)
    requires |parts| == 5 && ParseUnsigned(parts[1], U32) == Some(ttl) && parts[2] == "IN"
    ensures FieldsOf(parts, defaultTtl).typeAt == 3 && parts[4..] == [parts[4]]
  {
  }

  lemma BadDataParsed(rtype: string, w: string, origin: Name, arms: Arms)
    requires IsBadData(rtype, w)
    ensures ParseData(rtype, [w], origin, arms) == Err
  {
    if rtype == "A" {
      AddressExact(w);
    }
  }
}
