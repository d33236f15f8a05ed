/** Comments and parentheses of zone files (`preprocess_zone_content` in `src/zone.rs`). */
module ZonePreprocessor {
  import opened Text

  /** Cut at the first semicolon, unless an odd number of quotes stands before it. */
  function StripComment(line: string): string {
    var before := line[..IndexOf(line, ';')];
    if ';' in line && Count(before, '"') % 2 == 0 then before else line
  }

  /** A line as the grouping sees it. */
  datatype Piece = Opening(text: string) | Closing(text: string) | Plain(text: string)

  /** A line with `(` opens, even if it also has `)`; otherwise `)` closes. */
  function ToPiece(line: string): Piece {
    var trimmed := Trim(StripComment(line));
    if '(' in trimmed then Opening(Trim(Remove(trimmed, '(')))
    else if ')' in trimmed then Closing(Trim(Remove(trimmed, ')')))
    else Plain(trimmed)
  }

  function ToPieces(lines: seq<string>): (pieces: seq<Piece>)
    ensures |pieces| == |lines|
  {
    if lines == [] then [] else ToPieces(lines[..|lines| - 1]) + [ToPiece(lines[|lines| - 1])]
  }

  /** The lines finished so far, the accumulated line, and whether a parenthesis is open. */
  datatype State = State(out: seq<string>, acc: string, open: bool)

  const START := State([], "", false)

  function Step(s: State, p: Piece): State {
    match p
    case Opening(text) => State(s.out, s.acc + text + " ", true)
    case Closing(text) => State(s.out + [Trim(s.acc + text)], "", false)
    case Plain(text) =>
      if s.open then s.(acc := s.acc + text + " ")
      else if text != "" then s.(out := s.out + [text])
      else s
  }

  function Run(s: State, pieces: seq<Piece>): State {
    if pieces == [] then s else Step(Run(s, pieces[..|pieces| - 1]), pieces[|pieces| - 1])
  }

  function Finish(s: State): seq<string> {
    if s.acc == "" then s.out else s.out + [Trim(s.acc)]
  }

  function Processed(lines: seq<string>): seq<string> {
    Finish(Run(START, ToPieces(lines)))
  }

  method PreprocessZoneContent(content: string) returns (result: seq<string>)
    ensures result == Processed(Lines(content))
    ensures AllTokens(result) == AllVisible(Lines(content))
  {
    result := [];
    var currentLine := "";
    var inParens := false;
    var lines := Lines(content);
    for i := 0 to |lines|
      invariant State(result, currentLine, inParens) == Run(START, ToPieces(lines[..i]))
    {
      RunNext(START, lines, i);
      var trimmed := Trim(StripComment(lines[i]));
      if '(' in trimmed {
        inParens := true;
        currentLine := currentLine + Trim(Remove(trimmed, '('));
        currentLine := currentLine + " ";
        continue;
      }
      if ')' in trimmed {
        inParens := false;
        currentLine := currentLine + Trim(Remove(trimmed, ')'));
        result := result + [Trim(currentLine)];
        currentLine := "";
        continue;
      }
      if inParens {
        currentLine := currentLine + trimmed;
        currentLine := currentLine + " ";
      } else if trimmed != "" {
        result := result + [trimmed];
      }
    }
    assert lines[..|lines|] == lines;
    if currentLine != "" {
      result := result + [Trim(currentLine)];
    }
    TokensConserved(lines);
  }

  // ----- comments -----

  /** A semicolon after an even number of quotes starts a comment; what follows it is not read. */
  lemma CommentCut(a: string, b: string)
    requires ';' !in a && multiset(a)['"'] % 2 == 0
    ensures ToPiece(a + ";" + b) == ToPiece(a)
  {
    CountExact(a, '"');
    IndexOfConcat(a, ';', b);
    var line := a + ";" + b;
    assert line[|a|] == ';' && line[..|a|] == a;
    assert StripComment(line) == a;
    assert StripComment(a) == a;
  }

  /** In any text such a comment changes no line of the output. */
  lemma CommentInvisible(before: seq<string>, a: string, b: string, after: seq<string>)
    requires ';' !in a && multiset(a)['"'] % 2 == 0
    ensures Processed(before + [a + ";" + b] + after) == Processed(before + [a] + after)
  {
    CommentCut(a, b);
    assert ToPieces([a + ";" + b]) == ToPieces([a]) by {
      assert [a + ";" + b][..0] == [a][..0];
    }
    ToPiecesConcat(before + [a + ";" + b], after);
    ToPiecesConcat(before, [a + ";" + b]);
    ToPiecesConcat(before + [a], after);
    ToPiecesConcat(before, [a]);
  }

  /** What is left of a line for its tokens, once nothing is cut: `(` goes, or else `)`. */
  lemma UncutTokens(line: string)
    requires StripComment(line) == line
    ensures AllTokens(Processed([line])) ==
            Tokens(if '(' in line then Remove(line, '(') else if ')' in line then Remove(line, ')') else line)
  {
    TokensConserved([line]);
    assert [line][..0] == [];
    assert AllVisible([line][..0]) == [];
    assert AllVisible([line]) == Tokens(Visible(line));
  }

  /** Nothing is cut of a line without a semicolon. */
  lemma NoSemicolonKept(line: string)
    requires ';' !in line
    ensures AllTokens(Processed([line])) ==
            Tokens(if '(' in line then Remove(line, '(') else if ')' in line then Remove(line, ')') else line)
  {
    UncutTokens(line);
  }

  /** Nothing is cut of a line whose first semicolon stands after an odd number of quotes. */
  lemma QuotedSemicolonKept(a: string, b: string)
    requires ';' !in a && multiset(a)['"'] % 2 == 1
    ensures var line := a + ";" + b;
            AllTokens(Processed([line])) ==
            Tokens(if '(' in line then Remove(line, '(') else if ')' in line then Remove(line, ')') else line)
  {
    var line := a + ";" + b;
    CountExact(a, '"');
    IndexOfConcat(a, ';', b);
    assert line[|a|] == ';' && line[..|a|] == a;
    UncutTokens(line);
  }

  // ----- one line more -----

  lemma RunSnoc(s: State, lines: seq<string>, line: string)
    ensures Run(s, ToPieces(lines + [line])) == Step(Run(s, ToPieces(lines)), ToPiece(line))
  {
    assert (lines + [line])[..|lines|] == lines;
    PushPiece(s, ToPieces(lines), ToPiece(line));
  }

  lemma PushPiece(s: State, pieces: seq<Piece>, p: Piece)
    ensures Run(s, pieces + [p]) == Step(Run(s, pieces), p)
  {
    assert (pieces + [p])[..|pieces|] == pieces;
  }

  lemma RunNext(s: State, lines: seq<string>, i: nat)
    requires i < |lines|
    ensures Run(s, ToPieces(lines[..i + 1])) == Step(Run(s, ToPieces(lines[..i])), ToPiece(lines[i]))
  {
    assert lines[..i + 1] == lines[..i] + [lines[i]];
    RunSnoc(s, lines[..i], lines[i]);
  }

  lemma {:induction false} PieceAt(lines: seq<string>, i: nat)
    requires i < |lines|
    ensures ToPieces(lines)[i] == ToPiece(lines[i])
  {
    if i < |lines| - 1 {
      PieceAt(lines[..|lines| - 1], i);
    }
  }

  // ----- token conservation -----

  /** What of a line is not comment or grouping. */
  function Visible(line: string): string {
    var s := StripComment(line);
    if '(' in s then Remove(s, '(') else if ')' in s then Remove(s, ')') else s
  }

  function AllTokens(lines: seq<string>): seq<string> {
    if lines == [] then [] else AllTokens(lines[..|lines| - 1]) + Tokens(lines[|lines| - 1])
  }

  /** The tokens of the visible parts of the input lines. */
  function AllVisible(lines: seq<string>): seq<string> {
    if lines == [] then [] else AllVisible(lines[..|lines| - 1]) + Tokens(Visible(lines[|lines| - 1]))
  }

  function PieceTokens(pieces: seq<Piece>): seq<string> {
    if pieces == [] then [] else PieceTokens(pieces[..|pieces| - 1]) + Tokens(pieces[|pieces| - 1].text)
  }

  /** Outside parentheses nothing is accumulated; inside, the accumulator ends in a space. */
  predicate WellFormed(s: State) {
    if s.open then s.acc != "" && s.acc[|s.acc| - 1] == ' ' else s.acc == ""
  }

  function Held(s: State): seq<string> {
    AllTokens(s.out) + Tokens(s.acc)
  }

  lemma AllTokensSnoc(lines: seq<string>, line: string)
    ensures AllTokens(lines + [line]) == AllTokens(lines) + Tokens(line)
  {
    assert (lines + [line])[..|lines|] == lines;
  }

  lemma {:induction false} TrimStartKeeps(s: string, c: char)
    requires !IsSpace(c)
    ensures c in TrimStart(s) <==> c in s
  {
    if s != "" && IsSpace(s[0]) {
      TrimStartKeeps(s[1..], c);
      assert s == [s[0]] + s[1..];
    }
  }

  lemma {:induction false} TrimEndKeeps(s: string, c: char)
    requires !IsSpace(c)
    ensures c in TrimEnd(s) <==> c in s
  {
    if s != "" && IsSpace(s[|s| - 1]) {
      TrimEndKeeps(s[..|s| - 1], c);
      assert s == s[..|s| - 1] + [s[|s| - 1]];
    }
  }

  /** Trimming keeps parentheses, so a piece is of its line's kind. */
  lemma PieceKind(line: string)
    ensures '(' in Trim(StripComment(line)) <==> '(' in StripComment(line)
    ensures ')' in Trim(StripComment(line)) <==> ')' in StripComment(line)
    ensures ToPiece(line).Opening? <==> Opens(line)
    ensures ToPiece(line).Closing? <==> Closes(line)
  {
    var s := StripComment(line);
    TrimStartKeeps(s, '(');
    TrimEndKeeps(TrimStart(s), '(');
    TrimStartKeeps(s, ')');
    TrimEndKeeps(TrimStart(s), ')');
  }

  /** A piece has the tokens of the visible part of its line. */
  lemma PieceVisible(line: string)
    ensures Tokens(ToPiece(line).text) == Tokens(Visible(line))
  {
    var s := StripComment(line);
    PieceKind(line);
    TokensRemoveTrim(s, '(');
    TokensRemoveTrim(s, ')');
    TokensTrim(Remove(Trim(s), '('));
    TokensTrim(Remove(Trim(s), ')'));
    TokensTrim(s);
  }

  lemma {:induction false} PiecesVisible(lines: seq<string>)
    ensures PieceTokens(ToPieces(lines)) == AllVisible(lines)
  {
    if lines != [] {
      var init := lines[..|lines| - 1];
      PiecesVisible(init);
      PieceVisible(lines[|lines| - 1]);
    }
  }

  lemma Accumulate(acc: string, x: string)
    requires acc == "" || acc[|acc| - 1] == ' '
    ensures Tokens(acc + x + " ") == Tokens(acc) + Tokens(x)
  {
    assert acc + x + " " == acc + x + [' '] + "";
    TokensConcat(acc + x, ' ', "");
    TokensAppend(acc, x);
  }

  lemma StepConserves(s: State, p: Piece)
    requires WellFormed(s)
    ensures WellFormed(Step(s, p))
    ensures Held(Step(s, p)) == Held(s) + Tokens(p.text)
  {
    match p
    case Opening(text) =>
      Accumulate(s.acc, text);
    case Closing(text) =>
      TokensAppend(s.acc, text);
      TokensTrim(s.acc + text);
      AllTokensSnoc(s.out, Trim(s.acc + text));
    case Plain(text) =>
      if s.open {
        Accumulate(s.acc, text);
      } else if text != "" {
        AllTokensSnoc(s.out, text);
      }
  }

  lemma {:induction false} RunConserves(s: State, pieces: seq<Piece>)
    requires WellFormed(s)
    ensures WellFormed(Run(s, pieces))
    ensures Held(Run(s, pieces)) == Held(s) + PieceTokens(pieces)
  {
    if pieces != [] {
      var init, last := pieces[..|pieces| - 1], pieces[|pieces| - 1];
      RunConserves(s, init);
      StepConserves(Run(s, init), last);
      Associative(Held(s), PieceTokens(init), Tokens(last.text));
    } else {
      assert Held(s) + [] == Held(s);
    }
  }

  lemma Associative<T>(a: seq<T>, b: seq<T>, c: seq<T>)
    ensures (a + b) + c == a + (b + c)
  {
  }

  /** Whatever the text, preprocessing loses, invents, splits and joins no token. */
  lemma TokensConserved(lines: seq<string>)
    ensures AllTokens(Processed(lines)) == AllVisible(lines)
  {
    PiecesVisible(lines);
    PiecesConserved(ToPieces(lines));
  }

  lemma PiecesConserved(pieces: seq<Piece>)
    ensures AllTokens(Finish(Run(START, pieces))) == PieceTokens(pieces)
  {
    RunConserves(START, pieces);
    FinishConserves(Run(START, pieces));
    assert Held(START) == [];
    assert [] + PieceTokens(pieces) == PieceTokens(pieces);
  }

  lemma FinishConserves(s: State)
    ensures AllTokens(Finish(s)) == Held(s)
  {
    if s.acc != "" {
      TokensTrim(s.acc);
      AllTokensSnoc(s.out, Trim(s.acc));
    }
  }

  // ----- concatenation -----

  lemma {:induction false} RunConcat(s: State, a: seq<Piece>, b: seq<Piece>)
    ensures Run(s, a + b) == Run(Run(s, a), b)
  {
    if b == [] {
      assert a + b == a;
    } else {
      assert (a + b)[..|a + b| - 1] == a + b[..|b| - 1];
      RunConcat(s, a, b[..|b| - 1]);
    }
  }

  /** Finished lines are never looked at again. */
  lemma {:induction false} RunOnTop(front: seq<string>, s: State, pieces: seq<Piece>)
    ensures Run(s.(out := front + s.out), pieces)
            == Run(s, pieces).(out := front + Run(s, pieces).out)
  {
    if pieces != [] {
      RunOnTop(front, s, pieces[..|pieces| - 1]);
    }
  }

  /** The text ends outside parentheses. */
  predicate EndsClosed(lines: seq<string>) {
    !Run(START, ToPieces(lines)).open
  }

  /** Text can be preprocessed in parts exactly when the first part ends outside parentheses. */
  lemma DistributesExact(a: seq<string>)
    ensures (forall b :: Processed(a + b) == Processed(a) + Processed(b)) <==> EndsClosed(a)
  {
    RunConserves(START, ToPieces(a));
    if EndsClosed(a) {
      forall b ensures Processed(a + b) == Processed(a) + Processed(b) {
        Distributes(a, b);
      }
    } else {
      DoesNotDistribute(a);
    }
  }

  lemma Distributes(a: seq<string>, b: seq<string>)
    requires EndsClosed(a)
    ensures Processed(a + b) == Processed(a) + Processed(b)
  {
    ToPiecesConcat(a, b);
    RunConserves(START, ToPieces(a));
    PiecesDistribute(ToPieces(a), ToPieces(b));
  }

  /** The same of texts, cut at any line end. */
  lemma TextDistributesExact(a: string)
    ensures var first := Lines(a + "\n");
            (forall b :: Processed(Lines(a + "\n" + b)) == Processed(first) + Processed(Lines(b)))
            <==> EndsClosed(first)
  {
    var first := Lines(a + "\n");
    if EndsClosed(first) {
      forall b ensures Processed(Lines(a + "\n" + b)) == Processed(first) + Processed(Lines(b)) {
        LinesConcat(a, b);
        Distributes(first, Lines(b));
      }
    } else {
      DoesNotDistribute(first);
      LinesConcat(a, "x");
      assert Lines("x") == ["x"];
    }
  }

  lemma {:induction false} ToPiecesConcat(a: seq<string>, b: seq<string>)
    ensures ToPieces(a + b) == ToPieces(a) + ToPieces(b)
  {
    if b == [] {
      assert a + b == a;
    } else {
      assert (a + b)[..|a + b| - 1] == a + b[..|b| - 1];
      ToPiecesConcat(a, b[..|b| - 1]);
    }
  }

  lemma PiecesDistribute(a: seq<Piece>, b: seq<Piece>)
    requires Run(START, a).acc == "" && !Run(START, a).open
    ensures Finish(Run(START, a + b)) == Finish(Run(START, a)) + Finish(Run(START, b))
  {
    var s, t := Run(START, a), Run(START, b);
    RunConcat(START, a, b);
    RunOnTop(s.out, START, b);
    assert START.(out := s.out + START.out) == s;
    assert s.out + (t.out + [Trim(t.acc)]) == s.out + t.out + [Trim(t.acc)];
  }

  lemma DoesNotDistribute(a: seq<string>)
    requires !EndsClosed(a)
    ensures Processed(a + ["x"]) != Processed(a) + Processed(["x"])
  {
    RunConserves(START, ToPieces(a));
    PlainPiece();
    RunSnoc(START, a, "x");
    RunSnoc(START, [], "x");
    assert [] + ["x"] == ["x"];
    OpenStateAbsorbs(Run(START, ToPieces(a)));
    assert |Processed(["x"])| == 1;
  }

  lemma OpenStateAbsorbs(s: State)
    requires s.open && WellFormed(s)
    ensures |Finish(Step(s, Plain("x")))| == |Finish(s)|
  {
  }

  lemma PlainPiece()
    ensures ToPiece("x") == Plain("x")
  {
    assert StripComment("x") == "x";
    assert TrimStart("x") == "x" && TrimEnd("x") == "x";
  }

  // ----- layout -----

  predicate Opens(line: string) {
    '(' in StripComment(line)
  }

  predicate Closes(line: string) {
    !Opens(line) && ')' in StripComment(line)
  }

  /** A record spread over lines: opened on the first, closed on the last and nowhere between. */
  ghost predicate IsGroup(lines: seq<string>) {
    && |lines| >= 2
    && Opens(lines[0])
    && (forall i :: 0 < i < |lines| - 1 ==> !Closes(lines[i]))
    && Closes(lines[|lines| - 1])
  }

  /** A group becomes one line that carries exactly the group's tokens. */
  lemma GroupBecomesLine(s: State, lines: seq<string>) returns (joined: string)
    requires !s.open && WellFormed(s) && IsGroup(lines)
    ensures Run(s, ToPieces(lines)) == State(s.out + [joined], "", false)
    ensures Tokens(joined) == AllVisible(lines)
  {
    var pieces := ToPieces(lines);
    GroupPieces(lines);
    PiecesVisible(lines);
    joined := PiecesBecomeLine(s, pieces);
  }

  lemma PieceKinds(lines: seq<string>, i: nat)
    requires i < |lines|
    ensures ToPieces(lines)[i].Opening? <==> Opens(lines[i])
    ensures ToPieces(lines)[i].Closing? <==> Closes(lines[i])
  {
    PieceAt(lines, i);
    PieceKind(lines[i]);
  }

  lemma GroupPieces(lines: seq<string>)
    requires IsGroup(lines)
    ensures IsPieceGroup(ToPieces(lines))
  {
    PieceKinds(lines, 0);
    PieceKinds(lines, |lines| - 1);
    forall i | 0 < i < |lines| - 1 ensures !ToPieces(lines)[i].Closing? {
      PieceKinds(lines, i);
    }
  }

  ghost predicate IsPieceGroup(pieces: seq<Piece>) {
    && |pieces| >= 2
    && pieces[0].Opening? && pieces[|pieces| - 1].Closing?
    && forall i :: 0 < i < |pieces| - 1 ==> !pieces[i].Closing?
  }

  lemma PiecesBecomeLine(s: State, pieces: seq<Piece>) returns (joined: string)
    requires !s.open && s.acc == "" && IsPieceGroup(pieces)
    ensures Run(s, pieces) == State(s.out + [joined], "", false)
    ensures Tokens(joined) == PieceTokens(pieces)
  {
    StaysOpen(s, pieces, |pieces| - 1);
    var before := Run(s, pieces[..|pieces| - 1]);
    joined := Trim(before.acc + pieces[|pieces| - 1].text);
    RunConserves(s, pieces);
    AllTokensSnoc(s.out, joined);
    assert Tokens("") == [];
    assert Held(s) == AllTokens(s.out);
    assert Held(Run(s, pieces)) == AllTokens(s.out) + Tokens(joined);
    SameFront(AllTokens(s.out), Tokens(joined), PieceTokens(pieces));
  }

  lemma SameFront<T>(front: seq<T>, a: seq<T>, b: seq<T>)
    requires front + a == front + b
    ensures a == b
  {
    assert (front + a)[|front|..] == a && (front + b)[|front|..] == b;
  }

  lemma {:induction false} StaysOpen(s: State, pieces: seq<Piece>, k: nat)
    requires 1 <= k <= |pieces| && pieces[0].Opening?
    requires forall i :: 0 < i < k ==> !pieces[i].Closing?
    ensures Run(s, pieces[..k]).open && Run(s, pieces[..k]).out == s.out
  {
    assert pieces[..k][..k - 1] == pieces[..k - 1];
    if k == 1 {
      assert pieces[..0] == [];
    } else {
      StaysOpen(s, pieces, k - 1);
    }
  }

  /** A text ends outside parentheses exactly when its last line has no `(` and has `)`, or the
    * text before that line did. A line with both opens and does not close. */
  lemma EndsClosedExact(lines: seq<string>, line: string)
    ensures EndsClosed(lines + [line]) <==> !Opens(line) && (Closes(line) || EndsClosed(lines))
  {
    PieceKind(line);
    RunSnoc(START, lines, line);
  }

  /** A line that looks complete and leaves its text inside parentheses. */
  lemma BothParenthesesStayOpen()
    ensures !EndsClosed(["()"])
  {
    EndsClosedExact([], "()");
    assert StripComment("()")[0] == '(';
    assert [] + ["()"] == ["()"];
  }
}
