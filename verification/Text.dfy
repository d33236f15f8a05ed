/** The string operations the zone parser uses, as functions on sequences of characters. */
module Text {
  import opened Wrappers

  /** Unicode white space, as `char::is_whitespace` has it. */
  predicate IsSpace(c: char) {
    || '\t' <= c <= '\r' || c == ' ' || c == '\U{85}' || c == '\U{A0}' || c == '\U{1680}'
    || '\U{2000}' <= c <= '\U{200A}' || c == '\U{2028}' || c == '\U{2029}' || c == '\U{202F}'
    || c == '\U{205F}' || c == '\U{3000}'
  }

  function TrimStart(s: string): string {
    if s != "" && IsSpace(s[0]) then TrimStart(s[1..]) else s
  }

  function TrimEnd(s: string): string {
    if s != "" && IsSpace(s[|s| - 1]) then TrimEnd(s[..|s| - 1]) else s
  }

  function Trim(s: string): string {
    TrimEnd(TrimStart(s))
  }

  function Remove(s: string, c: char): string {
    if s == "" then "" else (if s[0] == c then "" else [s[0]]) + Remove(s[1..], c)
  }

  function Count(s: string, c: char): nat {
    if s == "" then 0 else (if s[0] == c then 1 else 0) + Count(s[1..], c)
  }

  /** Where `c` first occurs, or the length. */
  function IndexOf(s: string, c: char): (i: nat)
    ensures i <= |s|
  {
    if s == "" || s[0] == c then 0 else 1 + IndexOf(s[1..], c)
  }

  lemma {:induction false} IndexOfFirst(s: string, c: char)
    ensures var i := IndexOf(s, c);
            && c !in s[..i]
            && (i < |s| ==> s[i] == c)
            && (i == |s| <==> c !in s)
  {
    if s != "" && s[0] != c {
      IndexOfFirst(s[1..], c);
      var i := IndexOf(s, c);
      assert s[..i] == [s[0]] + s[1..][..i - 1];
    }
  }

  predicate StartsWith(s: string, prefix: string) {
    prefix <= s
  }

  predicate EndsWithDot(s: string) {
    s != "" && s[|s| - 1] == '.'
  }

  // ----- lines -----

  function StripReturn(s: string): string {
    if s != "" && s[|s| - 1] == '\r' then s[..|s| - 1] else s
  }

  /** `str::lines`: split after each newline; a last line without one counts if not empty. */
  function Lines(s: string): seq<string>
    decreases |s|
  {
    if s == "" then []
    else
      var i := IndexOf(s, '\n');
      if i == |s| then [s] else [StripReturn(s[..i])] + Lines(s[i + 1..])
  }

  lemma {:induction false} IndexOfConcat(a: string, c: char, b: string)
    requires c !in a
    ensures IndexOf(a + [c] + b, c) == |a|
  {
    if a != "" {
      assert (a + [c] + b)[1..] == a[1..] + [c] + b;
      IndexOfConcat(a[1..], c, b);
    }
  }

  lemma LinesFirst(line: string, rest: string)
    requires '\n' !in line
    ensures Lines(line + "\n" + rest) == [StripReturn(line)] + Lines(rest)
  {
    var s := line + "\n" + rest;
    IndexOfConcat(line, '\n', rest);
    assert s[..|line|] == line && s[|line| + 1..] == rest;
  }

  lemma {:induction false} LinesConcat(a: string, b: string)
    ensures Lines(a + "\n" + b) == Lines(a + "\n") + Lines(b)
    decreases |a|
  {
    var i := IndexOf(a, '\n');
    IndexOfFirst(a, '\n');
    if i == |a| {
      LinesFirst(a, b);
      LinesFirst(a, "");
      assert a + "\n" + "" == a + "\n";
    } else {
      var line, rest := a[..i], a[i + 1..];
      assert a == line + "\n" + rest;
      LinesConcat(rest, b);
      LinesSplice(line, rest, b);
    }
  }

  lemma LinesSplice(line: string, rest: string, b: string)
    requires '\n' !in line
    requires Lines(rest + "\n" + b) == Lines(rest + "\n") + Lines(b)
    ensures Lines(line + "\n" + rest + "\n" + b) == Lines(line + "\n" + rest + "\n") + Lines(b)
  {
    LinesFirst(line, rest + "\n" + b);
    LinesFirst(line, rest + "\n");
    Regroup(line + "\n", rest + "\n", b);
    Regroup(line + "\n", rest, "\n");
    Regroup(line + "\n" + rest, "\n", b);
    Regroup(rest, "\n", b);
    Regroup([StripReturn(line)], Lines(rest + "\n"), Lines(b));
  }

  lemma Regroup<T>(a: seq<T>, b: seq<T>, c: seq<T>)
    ensures a + (b + c) == (a + b) + c
  {
  }

  // ----- tokens -----

  function Flush(word: string): seq<string> {
    if word == "" then [] else [word]
  }

  /** The words of `s`, the first of them continuing `word`. */
  function Words(s: string, word: string): seq<string> {
    if s == "" then Flush(word)
    else if IsSpace(s[0]) then Flush(word) + Words(s[1..], "")
    else Words(s[1..], word + [s[0]])
  }

  /** `split_whitespace`. */
  function Tokens(s: string): seq<string> {
    Words(s, "")
  }

  lemma {:induction false} WordsConcat(a: string, sp: char, b: string, word: string)
    requires IsSpace(sp)
    ensures Words(a + [sp] + b, word) == Words(a, word) + Words(b, "")
  {
    var s := a + [sp] + b;
    if a == "" {
      assert s[1..] == b;
    } else {
      assert s[1..] == a[1..] + [sp] + b;
      if IsSpace(a[0]) {
        WordsConcat(a[1..], sp, b, "");
      } else {
        WordsConcat(a[1..], sp, b, word + [a[0]]);
      }
    }
  }

  lemma TokensConcat(a: string, sp: char, b: string)
    requires IsSpace(sp)
    ensures Tokens(a + [sp] + b) == Tokens(a) + Tokens(b)
  {
    WordsConcat(a, sp, b, "");
  }

  /** Text that is empty or ends in a space can be continued without joining words. */
  lemma TokensAppend(a: string, b: string)
    requires a == "" || IsSpace(a[|a| - 1])
    ensures Tokens(a + b) == Tokens(a) + Tokens(b)
  {
    if a == "" {
      assert a + b == b;
    } else {
      var init, sp := a[..|a| - 1], a[|a| - 1];
      assert a + b == init + [sp] + b && a == init + [sp] + "";
      TokensConcat(init, sp, b);
      TokensConcat(init, sp, "");
    }
  }

  lemma {:induction false} TokensTrimStart(s: string)
    ensures Tokens(TrimStart(s)) == Tokens(s)
  {
    if s != "" && IsSpace(s[0]) {
      TokensTrimStart(s[1..]);
    }
  }

  lemma {:induction false} TokensTrimEnd(s: string)
    ensures Tokens(TrimEnd(s)) == Tokens(s)
  {
    if s != "" && IsSpace(s[|s| - 1]) {
      var init := s[..|s| - 1];
      TokensTrimEnd(init);
      assert s == init + [s[|s| - 1]] + "";
      TokensConcat(init, s[|s| - 1], "");
    }
  }

  lemma TokensTrim(s: string)
    ensures Tokens(Trim(s)) == Tokens(s)
  {
    TokensTrimStart(s);
    TokensTrimEnd(TrimStart(s));
  }

  lemma {:induction false} RemoveConcat(a: string, b: string, c: char)
    ensures Remove(a + b, c) == Remove(a, c) + Remove(b, c)
  {
    if a == "" {
      assert a + b == b;
    } else {
      assert (a + b)[1..] == a[1..] + b;
      RemoveConcat(a[1..], b, c);
    }
  }

  lemma {:induction false} RemoveAbsent(s: string, c: char)
    requires c !in s
    ensures Remove(s, c) == s
  {
    if s != "" {
      RemoveAbsent(s[1..], c);
    }
  }

  /** Trimming before removing a visible character changes no token. */
  lemma TokensRemoveTrim(s: string, c: char)
    requires !IsSpace(c)
    ensures Tokens(Remove(Trim(s), c)) == Tokens(Remove(s, c))
  {
    TokensRemoveTrimStart(s, c);
    TokensRemoveTrimEnd(TrimStart(s), c);
  }

  lemma {:induction false} TokensRemoveTrimStart(s: string, c: char)
    requires !IsSpace(c)
    ensures Tokens(Remove(TrimStart(s), c)) == Tokens(Remove(s, c))
  {
    if s != "" && IsSpace(s[0]) {
      TokensRemoveTrimStart(s[1..], c);
      assert Remove(s, c)[1..] == Remove(s[1..], c);
    }
  }

  lemma {:induction false} TokensRemoveTrimEnd(s: string, c: char)
    requires !IsSpace(c)
    ensures Tokens(Remove(TrimEnd(s), c)) == Tokens(Remove(s, c))
  {
    if s != "" && IsSpace(s[|s| - 1]) {
      var init, sp := s[..|s| - 1], s[|s| - 1];
      TokensRemoveTrimEnd(init, c);
      assert s == init + [sp];
      RemoveConcat(init, [sp], c);
      assert Remove([sp], c) == [sp];
      assert Remove(s, c) == Remove(init, c) + [sp] + "";
      TokensConcat(Remove(init, c), sp, "");
    }
  }

  lemma {:induction false} TrimEnds(s: string)
    ensures TrimStart(s) == "" || !IsSpace(TrimStart(s)[0])
    ensures TrimEnd(s) <= s
  {
    if s != "" && IsSpace(s[0]) {
      TrimEnds(s[1..]);
    }
    if s != "" && IsSpace(s[|s| - 1]) {
      TrimEnds(s[..|s| - 1]);
    }
  }

  /** A trimmed line is empty or starts with a visible character. */
  lemma TrimVisible(s: string)
    ensures Trim(s) == "" || !IsSpace(Trim(s)[0])
  {
    TrimEnds(s);
    TrimEnds(TrimStart(s));
  }

  /** A space-free word starts the line iff it starts the first token. */
  lemma {:induction false} FirstToken(line: string, word: string, prefix: string)
    requires prefix != "" && forall c :: c in prefix ==> !IsSpace(c)
    requires word != "" || (line != "" && !IsSpace(line[0]))
    ensures Words(line, word) != []
    ensures StartsWith(word + line, prefix) <==> StartsWith(Words(line, word)[0], prefix)
  {
    if line == "" {
      assert word + line == word;
    } else if IsSpace(line[0]) {
      if |prefix| > |word| {
        assert prefix[|word|] in prefix && (word + line)[|word|] == line[0];
      }
    } else {
      FirstToken(line[1..], word + [line[0]], prefix);
      assert word + [line[0]] + line[1..] == word + line;
    }
  }

  /** A line starts with a visible character iff it has a token. */
  lemma TokensEmpty(s: string)
    ensures Trim(s) == "" <==> Tokens(s) == []
  {
    TokensTrim(s);
    TrimVisible(s);
    if Trim(s) != "" {
      FirstToken(Trim(s), "", [Trim(s)[0]]);
    }
  }

  // ----- words to text -----

  predicate IsWord(w: string) {
    w != "" && forall c :: c in w ==> !IsSpace(c)
  }

  function Spaced(words: seq<string>): string {
    if words == [] then ""
    else Spaced(words[..|words| - 1]) + words[|words| - 1] + " "
  }

  lemma {:induction false} WordsOfWord(w: string, word: string)
    requires forall c :: c in w ==> !IsSpace(c)
    ensures Words(w, word) == Flush(word + w)
  {
    if w == "" {
      assert word + w == word;
    } else {
      WordsOfWord(w[1..], word + [w[0]]);
      assert word + [w[0]] + w[1..] == word + w;
    }
  }

  lemma {:induction false} TokensSpaced(words: seq<string>)
    requires forall w :: w in words ==> IsWord(w)
    ensures Tokens(Spaced(words)) == words
  {
    if words != [] {
      var init, last := words[..|words| - 1], words[|words| - 1];
      assert words == init + [last] && last in words;
      TokensSpaced(init);
      WordsOfWord(last, "");
      assert "" + last == last;
      assert Spaced(words) == Spaced(init) + (last + " ");
      SpacedEnds(init);
      TokensAppend(Spaced(init), last + " ");
      assert last + [' '] + "" == last + " ";
      TokensConcat(last, ' ', "");
      assert Tokens("") == [];
    }
  }

  lemma SpacedEnds(words: seq<string>)
    ensures Spaced(words) == "" || IsSpace(Spaced(words)[|Spaced(words)| - 1])
  {
  }

  // ----- pieces between dots -----

  function Split(s: string): (parts: seq<string>)
    ensures parts != []
  {
    if s == "" then [""]
    else
      var rest := Split(s[1..]);
      if s[0] == '.' then [""] + rest else [[s[0]] + rest[0]] + rest[1..]
  }

  lemma {:induction false} SplitFirst(l: string, s: string)
    requires '.' !in l
    ensures Split(l + "." + s) == [l] + Split(s)
  {
    var all := l + "." + s;
    if l == "" {
      assert all[1..] == s;
    } else {
      assert all[1..] == l[1..] + "." + s;
      SplitFirst(l[1..], s);
      assert [l[0]] + l[1..] == l;
    }
  }

  lemma {:induction false} SplitWhole(l: string)
    requires '.' !in l
    ensures Split(l) == [l]
  {
    if l != "" {
      SplitWhole(l[1..]);
      assert [l[0]] + l[1..] == l;
    }
  }

  // ----- numbers -----

  predicate IsDigit(c: char) {
    '0' <= c <= '9'
  }

  function Digit(d: nat): char
    requires d < 10
  {
    '0' + d as char
  }

  function DigitValue(c: char): nat
    requires IsDigit(c)
  {
    c as nat - '0' as nat
  }

  function PrintNat(n: nat): string {
    if n < 10 then [Digit(n)] else PrintNat(n / 10) + [Digit(n % 10)]
  }

  function PrintInt(n: int): string {
    if n < 0 then "-" + PrintNat(-n) else PrintNat(n)
  }

  function Value(s: string): nat
    requires forall c :: c in s ==> IsDigit(c)
  {
    if s == "" then 0 else 10 * Value(s[..|s| - 1]) + DigitValue(s[|s| - 1])
  }

  predicate AllDigits(s: string) {
    s != "" && forall c :: c in s ==> IsDigit(c)
  }

  /** `parse` for an unsigned type with values below `limit`: an optional `+`, then digits. */
  function ParseUnsigned(s: string, limit: nat): (r: Option<nat>)
    ensures r.Some? ==> r.value < limit
  {
    var digits := if s != "" && s[0] == '+' then s[1..] else s;
    if AllDigits(digits) && Value(digits) < limit then Some(Value(digits)) else None
  }

  /** `parse::<i32>`. */
  function ParseI32(s: string): (r: Option<int>)
    ensures r.Some? ==> -0x8000_0000 <= r.value < 0x8000_0000
  {
    if s != "" && s[0] == '-' then
      if AllDigits(s[1..]) && Value(s[1..]) <= 0x8000_0000 then Some(0 - Value(s[1..])) else None
    else
      ParseUnsigned(s, 0x8000_0000)
  }

  lemma {:induction false} PrintNatValue(n: nat)
    ensures AllDigits(PrintNat(n)) && Value(PrintNat(n)) == n
    ensures IsWord(PrintNat(n))
  {
    if n < 10 {
      assert PrintNat(n)[..0] == "";
    } else {
      PrintNatValue(n / 10);
      assert PrintNat(n)[..|PrintNat(n)| - 1] == PrintNat(n / 10);
    }
  }

  lemma ParsePrintedNat(n: nat, limit: nat)
    requires n < limit
    ensures ParseUnsigned(PrintNat(n), limit) == Some(n)
  {
    PrintNatValue(n);
    assert PrintNat(n)[0] in PrintNat(n);
  }

  lemma ParsePrintedInt(n: int)
    requires -0x8000_0000 <= n < 0x8000_0000
    ensures ParseI32(PrintInt(n)) == Some(n)
    ensures IsWord(PrintInt(n))
  {
    if n < 0 {
      PrintNatValue(-n);
      assert ("-" + PrintNat(-n))[1..] == PrintNat(-n);
    } else {
      ParsePrintedNat(n, 0x8000_0000);
      PrintNatValue(n);
      assert PrintNat(n)[0] in PrintNat(n);
    }
  }

  // ----- the operations by their effect -----

  lemma {:induction false} CountExact(s: string, c: char)
    ensures Count(s, c) == multiset(s)[c]
  {
    if s != "" {
      CountExact(s[1..], c);
      assert s == [s[0]] + s[1..];
    }
  }

  /** All occurrences go, and nothing else. */
  lemma {:induction false} RemoveExact(s: string, c: char)
    ensures c !in Remove(s, c)
    ensures forall x :: x != c ==> multiset(Remove(s, c))[x] == multiset(s)[x]
  {
    if s != "" {
      RemoveExact(s[1..], c);
      assert s == [s[0]] + s[1..];
    }
  }

  /** Parts with dots between them. */
  function Joined(parts: seq<string>): string
    requires parts != []
  {
    if |parts| == 1 then parts[0] else parts[0] + "." + Joined(parts[1..])
  }

  lemma {:induction false} SplitJoined(s: string)
    ensures Joined(Split(s)) == s
  {
    if s != "" {
      SplitJoined(s[1..]);
      var rest := Split(s[1..]);
      if s[0] == '.' {
        assert ([""] + rest)[1..] == rest;
        assert "" + "." + Joined(rest) == s;
      } else {
        var parts := [[s[0]] + rest[0]] + rest[1..];
        assert parts[1..] == rest[1..];
        if |rest| > 1 {
          assert [s[0]] + rest[0] + "." + Joined(rest[1..]) == [s[0]] + (rest[0] + "." + Joined(rest[1..]));
        }
        assert [s[0]] + s[1..] == s;
      }
    }
  }

  lemma {:induction false} ValueOfDigit(s: string)
    requires AllDigits(s) && |s| == 1
    ensures s == PrintNat(Value(s))
  {
    assert s[..0] == "" && s[0] in s;
    assert s == [s[0]];
  }

  /** Digits without a leading zero are how their value is printed. */
  lemma {:induction false} DigitsPrinted(s: string)
    requires AllDigits(s) && s[0] != '0'
    ensures s == PrintNat(Value(s)) && Value(s) > 0
  {
    var init, last := s[..|s| - 1], s[|s| - 1];
    assert last in s && s[0] in s;
    if init == "" {
      ValueOfDigit(s);
    } else {
      DigitsPrinted(init);
      assert Value(s) == 10 * Value(init) + DigitValue(last);
      assert s == init + [last];
    }
  }

  lemma {:induction false} LeadingZero(s: string)
    requires forall c :: c in s ==> IsDigit(c)
    ensures Value("0" + s) == Value(s)
  {
    var t := "0" + s;
    if s == "" {
      assert t[..0] == "";
    } else {
      LeadingZero(s[..|s| - 1]);
      assert t[..|t| - 1] == "0" + s[..|s| - 1];
    }
  }

  /** Numbers may have a plus sign and leading zeros; they must be within the limit, and have no
    * minus sign. */
  lemma UnsignedExact(n: nat, limit: nat)
    ensures var digits := PrintNat(n);
            && ParseUnsigned("+" + digits, limit) == ParseUnsigned("0" + digits, limit)
            && ParseUnsigned("0" + digits, limit) == ParseUnsigned(digits, limit)
            && ParseUnsigned(digits, limit) == (if n < limit then Some(n) else None)
            && ParseUnsigned("-" + digits, limit) == None && ParseUnsigned("", limit) == None
  {
    var digits := PrintNat(n);
    PrintNatValue(n);
    LeadingZero(digits);
    assert ("+" + digits)[1..] == digits;
    assert digits[0] in digits;
    assert ("-" + digits)[0] in "-" + digits;
  }
}
