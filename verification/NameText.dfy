/** Domain names as zone files spell them. Names are absolute and fold to lower case. */
module NameText {
  import opened Wrappers
  import opened Names
  import opened Text

  /** Characters of unescaped host names, service labels and wildcards. */
  predicate PlainChar(c: char) {
    'a' <= c <= 'z' || 'A' <= c <= 'Z' || IsDigit(c) || c == '-' || c == '_' || c == '*'
  }

  function LowerChar(c: char): char {
    if 'A' <= c <= 'Z' then c + 32 as char else c
  }

  function Lower(l: Label): Label {
    if l == "" then "" else [LowerChar(l[0])] + Lower(l[1..])
  }

  /** Letters, digits and inner hyphens, perhaps after an underscore; or a single `*`. */
  predicate PlainLabel(l: Label) {
    && ValidLabel(l)
    && (forall c :: c in l ==> PlainChar(c))
    && (l == "*" || HostLabel(if l[0] == '_' then l[1..] else l))
  }

  predicate HostLabel(l: string) {
    && l != "" && l[0] != '-' && l[|l| - 1] != '-'
    && (forall c :: c in l ==> c != '*' && c != '_')
    && !(|l| >= 4 && l[2] == '-' && l[3] == '-')
  }

  predicate PlainLabels(ls: seq<Label>) {
    forall l :: l in ls ==> PlainLabel(l)
  }

  function LowerAll(ls: seq<Label>): Name {
    if ls == [] then [] else [Lower(ls[0])] + LowerAll(ls[1..])
  }

  /** `Name::from_str` on absolute names: dots separate labels, the last dot is the root. */
  function ParseName(s: string): Option<Name> {
    if s == "." then Some(ROOT)
    else if !EndsWithDot(s) then None
    else
      var parts := Split(s[..|s| - 1]);
      if PlainLabels(parts) && ValidName(LowerAll(parts)) then Some(LowerAll(parts)) else None
  }

  /** Each label with its dot. */
  function Dotted(n: Name): string {
    if n == [] then "" else n[0] + "." + Dotted(n[1..])
  }

  function PrintName(n: Name): string {
    if n == ROOT then "." else Dotted(n)
  }

  /** `parse_domain_name`: without a final dot the origin is appended. */
  function ParseDomainName(s: string, origin: Name): Option<Name> {
    if EndsWithDot(s) then ParseName(s) else ParseName(s + "." + PrintName(origin))
  }

  /** The owner field, with its five spellings. */
  function OwnerName(s: string, origin: Name): Option<Name> {
    if s == "@" then Some(origin)
    else if s == "*" then ParseName("*." + PrintName(origin))
    else if StartsWith(s, "*.") then
      if EndsWithDot(s) then ParseName(s) else ParseName(s + "." + PrintName(origin))
    else if EndsWithDot(s) then ParseName(s)
    else ParseName(s + "." + PrintName(origin))
  }

  /** The wildcard spellings are not special: `@` apart, owners read as any other name. */
  lemma OwnerIsDomainName(s: string, origin: Name)
    requires s != "@"
    ensures OwnerName(s, origin) == ParseDomainName(s, origin)
  {
    if s == "*" {
      assert "*." + PrintName(origin) == "*" + "." + PrintName(origin);
    }
  }

  /** Names whose labels need no escape and are already folded. */
  predicate PlainName(n: Name) {
    PlainLabels(n) && forall l :: l in n ==> Lower(l) == l
  }

  lemma {:induction false} DottedConcat(a: Name, b: Name)
    ensures Dotted(a + b) == Dotted(a) + Dotted(b)
  {
    if a == [] {
      assert a + b == b;
    } else {
      assert (a + b)[1..] == a[1..] + b;
      DottedConcat(a[1..], b);
    }
  }

  lemma {:induction false} DottedEnds(n: Name)
    requires n != []
    ensures EndsWithDot(Dotted(n)) && |Dotted(n)| > |n[0]|
  {
    if |n| > 1 {
      DottedEnds(n[1..]);
    }
  }

  lemma {:induction false} SplitDotted(n: Name)
    requires n != [] && PlainLabels(n)
    ensures Dotted(n) != "" && Split(Dotted(n)[..|Dotted(n)| - 1]) == n
  {
    var l, rest := n[0], n[1..];
    assert l in n;
    assert '.' !in l;
    if rest == [] {
      assert Dotted(n) == l + "." + "";
      assert Dotted(n)[..|l|] == l;
      SplitWhole(l);
      assert n == [l];
    } else {
      SplitDotted(rest);
      var d := Dotted(rest);
      assert Dotted(n)[..|Dotted(n)| - 1] == l + "." + d[..|d| - 1];
      SplitFirst(l, d[..|d| - 1]);
      assert n == [l] + rest;
    }
  }

  lemma {:induction false} LowerAllPlain(n: Name)
    requires forall l :: l in n ==> Lower(l) == l
    ensures LowerAll(n) == n
  {
    if n != [] {
      assert n[0] in n;
      LowerAllPlain(n[1..]);
    }
  }

  lemma ReadParts(s: string, parts: seq<Label>)
    requires |s| > 1 && EndsWithDot(s) && Split(s[..|s| - 1]) == parts
    requires PlainLabels(parts) && ValidName(LowerAll(parts))
    ensures ParseName(s) == Some(LowerAll(parts))
  {
  }

  /** Names print and parse back. */
  lemma ParsePrintedName(n: Name)
    requires PlainName(n) && ValidName(n)
    ensures ParseName(PrintName(n)) == Some(n)
    ensures EndsWithDot(PrintName(n))
  {
    if n != [] {
      DottedEnds(n);
      SplitDotted(n);
      LowerAllPlain(n);
      assert n[0] in n;
      ReadParts(Dotted(n), n);
    }
  }

  /** The relative spelling of a prefix: its labels with dots between them. */
  function Relative(prefix: Name): string
    requires prefix != []
  {
    DottedEnds(prefix);
    Dotted(prefix)[..|Dotted(prefix)| - 1]
  }

  /** Relative spellings work exactly when the origin is not the root. */
  lemma RelativeExact(prefix: Name, origin: Name)
    requires prefix != [] && PlainName(prefix) && PlainName(origin) && ValidName(prefix + origin)
    ensures ParseName(Relative(prefix) + "." + PrintName(origin)) == Some(prefix + origin) <==> origin != ROOT
  {
    DottedEnds(prefix);
    var text := Relative(prefix) + "." + PrintName(origin);
    assert Relative(prefix) + "." == Dotted(prefix);
    if origin == ROOT {
      SplitDotted(prefix);
      assert text == Dotted(prefix) + ".";
      assert text[..|text| - 1] == Relative(prefix) + ".";
      SplitTrailing(Relative(prefix));
      assert "" in Split(Relative(prefix) + ".");
      assert text != ".";
    } else {
      DottedConcat(prefix, origin);
      assert text == Dotted(prefix) + Dotted(origin);
      assert PlainName(prefix + origin);
      ParsePrintedName(prefix + origin);
    }
  }

  /** Below the root, `x` becomes `x..` and is no name. */
  lemma RelativeFailsUnderRoot()
    ensures ParseDomainName("x", ROOT) == None && ParseDomainName("x.", ROOT) == Some(["x"])
  {
    assert PlainName(["x"]) && ValidName(["x"]) by {
      assert WireLength(["x"]) == 1 + 1 + WireLength(["x"][1..]) && ["x"][1..] == [];
      assert Lower("x") == "x";
    }
    assert Dotted(["x"]) == "x.";
    RelativeExact(["x"], ROOT);
    assert Relative(["x"]) == "x" && ["x"] + ROOT == ["x"];
    ParsePrintedName(["x"]);
    SplitTrailing("x");
    assert "x" + "." + "." == "x..";
    assert "x.."[..2] == "x" + ".";
    assert "" in Split("x" + ".");
  }

  lemma {:induction false} SplitTrailing(s: string)
    ensures Split(s + ".")[|Split(s + ".")| - 1] == ""
  {
    if s == "" {
      assert s + "." == ".";
      assert "."[1..] == "";
    } else {
      assert (s + ".")[1..] == s[1..] + ".";
      SplitTrailing(s[1..]);
    }
  }

  /** Every spelling of an owner below a non-root origin denotes the same name. */
  lemma SpellingsAgree(prefix: Name, origin: Name)
    requires prefix != [] && PlainName(prefix) && PlainName(origin) && ValidName(prefix + origin)
    requires origin != ROOT
    ensures OwnerName(Relative(prefix), origin) == Some(prefix + origin)
    ensures OwnerName(PrintName(prefix + origin), origin) == Some(prefix + origin)
    ensures OwnerName("@", origin) == Some(origin) == ParseName(PrintName(origin))
  {
    RelativeExact(prefix, origin);
    assert PlainName(prefix + origin);
    ParsePrintedName(prefix + origin);
    SuffixValid(prefix, origin);
    ParsePrintedName(origin);
    RelativeIsName(prefix);
    OwnerIsDomainName(Relative(prefix), origin);
    assert PrintName(prefix + origin) != "@";
    OwnerIsDomainName(PrintName(prefix + origin), origin);
  }

  lemma SuffixValid(prefix: Name, origin: Name)
    requires ValidName(prefix + origin)
    ensures ValidName(origin)
  {
    WireLengthConcat(prefix, origin);
    forall i | 0 <= i < |origin| ensures ValidLabel(origin[i]) {
      assert (prefix + origin)[|prefix| + i] == origin[i];
    }
    WireLengthPositive(prefix);
  }

  lemma {:induction false} WireLengthPositive(n: Name)
    ensures WireLength(n) >= 1
  {
    if n != [] {
      WireLengthPositive(n[1..]);
    }
  }

  lemma RelativeIsName(prefix: Name)
    requires prefix != [] && PlainName(prefix)
    ensures Relative(prefix) != "@" && !EndsWithDot(Relative(prefix))
  {
    DottedShape(prefix);
  }

  lemma {:induction false} DottedShape(n: Name)
    requires n != [] && PlainLabels(n)
    ensures var d := Dotted(n); |d| >= 2 && PlainChar(d[0]) && PlainChar(d[|d| - 2])
  {
    var l, rest := n[0], n[1..];
    assert l in n;
    assert l[0] in l && l[|l| - 1] in l;
    if rest == [] {
      assert Dotted(n) == l + ".";
    } else {
      DottedShape(rest);
      assert Dotted(n) == l + "." + Dotted(rest);
    }
  }

  /** Printed names have no white space and none of the characters with a meaning in zone files. */
  lemma {:induction false} DottedPlain(n: Name)
    requires PlainLabels(n)
    ensures forall c :: c in Dotted(n) ==> PlainChar(c) || c == '.'
  {
    if n != [] {
      assert n[0] in n;
      DottedPlain(n[1..]);
      assert Dotted(n) == n[0] + "." + Dotted(n[1..]);
    }
  }

  // ----- letter case -----

  lemma {:induction false} LowerExact(l: Label)
    ensures |Lower(l)| == |l|
    ensures forall i :: 0 <= i < |l| ==>
              Lower(l)[i] == if 'A' <= l[i] <= 'Z' then (l[i] as int + 32) as char else l[i]
  {
    if l != "" {
      LowerExact(l[1..]);
      forall i | 0 <= i < |l|
        ensures Lower(l)[i] == if 'A' <= l[i] <= 'Z' then (l[i] as int + 32) as char else l[i]
      {
        assert i > 0 ==> Lower(l)[i] == Lower(l[1..])[i - 1];
      }
    }
  }

  lemma {:induction false} LowerAllExact(ls: seq<Label>)
    ensures |LowerAll(ls)| == |ls| && forall i :: 0 <= i < |ls| ==> LowerAll(ls)[i] == Lower(ls[i])
  {
    if ls != [] {
      LowerAllExact(ls[1..]);
    }
  }

  /** Names are read in any letter case: label by label, the result is the spelling in lower case. */
  lemma AnyCaseRead(ls: seq<Label>)
    requires ls != [] && PlainLabels(ls) && ValidName(LowerAll(ls))
    ensures ParseName(Dotted(ls)) == Some(LowerAll(ls))
  {
    DottedEnds(ls);
    SplitDotted(ls);
    assert ls[0] in ls;
    ReadParts(Dotted(ls), ls);
  }
}
