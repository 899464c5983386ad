/** Splitting a migration file into statements. */
module Statements {
  import opened Text

  /** Where the first line comment of a line starts. */
  function CommentAt(line: string): (i: int)
    ensures -1 <= i < |line|
  {
    if |line| < 2 then -1
    else if line[0] == '-' && line[1] == '-' then 0
    else
      var rest := CommentAt(line[1..]);
      if rest < 0 then -1 else rest + 1
  }

  function StripLine(line: string): string {
    if CommentAt(line) >= 0 then line[..CommentAt(line)] else line
  }

  function StripLines(lines: seq<string>): string {
    if lines == [] then "" else StripLine(lines[0]) + "\n" + StripLines(lines[1..])
  }

  /** The text without its line comments. */
  function Strip(text: string): string {
    StripLines(Split(text, '\n'))
  }

  function KeepStatements(parts: seq<string>): seq<string> {
    if parts == [] then []
    else (if TrimSpace(parts[0]) != "" then [TrimSpace(parts[0])] else []) + KeepStatements(parts[1..])
  }

  function StatementsOf(text: string): seq<string> {
    KeepStatements(Split(Strip(text), ';'))
  }

  lemma {:induction false} StripLinesAppend(lines: seq<string>, line: string)
    ensures StripLines(lines + [line]) == StripLines(lines) + StripLine(line) + "\n"
  {
    if lines == [] {
      assert [line][1..] == [];
    } else {
      assert (lines + [line])[1..] == lines[1..] + [line];
      StripLinesAppend(lines[1..], line);
    }
  }

  lemma {:induction false} KeepStatementsAppend(parts: seq<string>, part: string)
    ensures KeepStatements(parts + [part])
            == KeepStatements(parts) + if TrimSpace(part) != "" then [TrimSpace(part)] else []
  {
    if parts == [] {
      assert [part][1..] == [];
    } else {
      assert (parts + [part])[1..] == parts[1..] + [part];
      KeepStatementsAppend(parts[1..], part);
    }
  }

  /** Strips every line, splits at semicolons, keeps what is left after trimming. */
  method SplitStatements(text: string) returns (statements: seq<string>)
    ensures statements == StatementsOf(text)
    ensures forall k :: 0 <= k < |statements| ==> WellFormed(statements[k])
  {
    var lines := Split(text, '\n');
    var stripped := "";
    for i := 0 to |lines|
      invariant stripped == StripLines(lines[..i])
    {
      var line := lines[i];
      var at := CommentAt(line);
      if at >= 0 {
        line := line[..at];
      }
      StripLinesAppend(lines[..i], lines[i]);
      assert lines[..i + 1] == lines[..i] + [lines[i]];
      stripped := stripped + line;
      stripped := stripped + ['\n'];
    }
    assert lines[..|lines|] == lines;

    var parts := Split(stripped, ';');
    statements := [];
    for i := 0 to |parts|
      invariant statements == KeepStatements(parts[..i])
    {
      var trimmed := TrimSpace(parts[i]);
      KeepStatementsAppend(parts[..i], parts[i]);
      assert parts[..i + 1] == parts[..i] + [parts[i]];
      if trimmed != "" {
        statements := statements + [trimmed];
      }
    }
    assert parts[..|parts|] == parts;
    StatementsWellFormed(text);
  }

  // ---------------------------------------------------------------- what a statement looks like

  predicate NoComment(s: string) {
    forall i :: 0 <= i < |s| - 1 ==> !(s[i] == '-' && s[i + 1] == '-')
  }

  /** Nonempty, trimmed, and free of semicolons and line comments. */
  predicate WellFormed(s: string) {
    s != "" && Trimmed(s) && ';' !in s && NoComment(s)
  }

  lemma {:induction false} StripLineNoComment(line: string)
    ensures NoComment(StripLine(line)) && (NoComment(line) ==> StripLine(line) == line)
    ensures '\n' !in line ==> '\n' !in StripLine(line)
  {
    if |line| >= 2 && !(line[0] == '-' && line[1] == '-') {
      StripLineNoComment(line[1..]);
      assert StripLine(line) == [line[0]] + StripLine(line[1..]);
      assert NoComment(line) ==> NoComment(line[1..]);
      var rest := StripLine(line[1..]);
      assert rest != "" ==> rest[0] == line[1];
    }
  }

  lemma NoCommentAcrossLines(a: string, b: string)
    requires NoComment(a) && NoComment(b)
    ensures NoComment(a + "\n" + b)
  {
    var s := a + "\n" + b;
    forall i | 0 <= i < |s| - 1
      ensures !(s[i] == '-' && s[i + 1] == '-')
    {
      if i + 1 < |a| {
        assert s[i] == a[i] && s[i + 1] == a[i + 1];
      } else if i > |a| {
        assert s[i] == b[i - |a| - 1] && s[i + 1] == b[i - |a|];
      }
    }
  }

  lemma {:induction false} StripLinesNoComment(lines: seq<string>)
    ensures NoComment(StripLines(lines))
  {
    if lines != [] {
      StripLineNoComment(lines[0]);
      StripLinesNoComment(lines[1..]);
      NoCommentAcrossLines(StripLine(lines[0]), StripLines(lines[1..]));
    }
  }

  lemma {:induction false} SplitPieces(s: string, sep: char, k: nat)
    requires k < |Split(s, sep)|
    ensures sep !in Split(s, sep)[k]
    ensures exists m, n :: 0 <= m <= n <= |s| && Split(s, sep)[k] == s[m..n] && (k == 0 ==> m == 0)
  {
    if s == "" {
      assert Split(s, sep)[k] == s[0..0];
    } else {
      var rest := Split(s[1..], sep);
      if s[0] == sep && k == 0 {
        assert Split(s, sep)[k] == s[0..0];
      } else {
        var j := if s[0] == sep then k - 1 else k;
        SplitPieces(s[1..], sep, j);
        var m, n :| 0 <= m <= n <= |s[1..]| && rest[j] == s[1..][m..n] && (j == 0 ==> m == 0);
        assert s[1..][m..n] == s[m + 1..n + 1];
        if s[0] != sep && k == 0 {
          assert Split(s, sep)[k] == [s[0]] + s[1..n + 1];
          assert [s[0]] + s[1..n + 1] == s[0..n + 1];
        }
      }
    }
  }

  lemma {:induction false} KeptIsTrimmedPart(parts: seq<string>, k: nat) returns (j: nat)
    requires k < |KeepStatements(parts)|
    ensures j < |parts| && KeepStatements(parts)[k] == TrimSpace(parts[j]) != ""
  {
    if TrimSpace(parts[0]) != "" {
      if k == 0 {
        j := 0;
      } else {
        j := KeptIsTrimmedPart(parts[1..], k - 1);
        j := j + 1;
      }
    } else {
      j := KeptIsTrimmedPart(parts[1..], k);
      j := j + 1;
    }
  }

  lemma StretchWellFormed(s: string, m: nat, n: nat)
    requires m <= n <= |s|
    ensures NoComment(s) ==> NoComment(s[m..n])
    ensures forall c :: c !in s ==> c !in s[m..n]
  {
  }

  /** Every statement found is one. */
  lemma StatementsWellFormed(text: string)
    ensures forall k :: 0 <= k < |StatementsOf(text)| ==> WellFormed(StatementsOf(text)[k])
  {
    var stripped := Strip(text);
    var parts := Split(stripped, ';');
    StripLinesNoComment(Split(text, '\n'));
    forall k | 0 <= k < |StatementsOf(text)|
      ensures WellFormed(StatementsOf(text)[k])
    {
      var j := KeptIsTrimmedPart(parts, k);
      SplitPieces(stripped, ';', j);
      var m, n :| 0 <= m <= n <= |stripped| && parts[j] == stripped[m..n];
      StretchWellFormed(stripped, m, n);
      var m', n' := TrimSpaceStretch(parts[j]);
      StretchWellFormed(parts[j], m', n');
    }
  }

  // ---------------------------------------------------------------- nothing else is lost

  /** The line is what was kept of it and a comment, which starts at its first two dashes. */
  ghost predicate Uncommented(line: string, kept: string) {
    && kept <= line && NoComment(kept)
    && (kept == line || (|kept| + 2 <= |line| && line[|kept|] == '-' && line[|kept| + 1] == '-'
                         && (kept != "" ==> kept[|kept| - 1] != '-')))
  }

  lemma {:induction false} StripLineUncomments(line: string)
    ensures Uncommented(line, StripLine(line))
  {
    StripLineNoComment(line);
    if |line| >= 2 && !(line[0] == '-' && line[1] == '-') {
      StripLineUncomments(line[1..]);
      var rest := StripLine(line[1..]);
      assert StripLine(line) == [line[0]] + rest;
      assert line == [line[0]] + line[1..];
    }
  }

  /** There is one way to cut a line at its first comment. */
  lemma UncommentedIsOnly(line: string, a: string, b: string)
    requires Uncommented(line, a) && Uncommented(line, b)
    ensures a == b
  {
    if |a| < |b| {
      CutTooEarly(line, a, b);
    } else if |b| < |a| {
      CutTooEarly(line, b, a);
    } else {
      assert a == line[..|a|] && b == line[..|b|];
    }
  }

  lemma CutTooEarly(line: string, a: string, b: string)
    requires Uncommented(line, a) && Uncommented(line, b)
    ensures |a| >= |b|
  {
    assert forall k :: 0 <= k < |b| ==> b[k] == line[k];
  }

  /** `kept` are, in order, the parts that are not all white space, each without the white space at
      its ends. */
  ghost predicate Kept(parts: seq<string>, kept: seq<string>)
    decreases |parts|
  {
    if parts == [] then kept == []
    else if AllSpace(parts[0]) then Kept(parts[1..], kept)
    else kept != [] && Padded(parts[0], kept[0]) && Trimmed(kept[0]) && Kept(parts[1..], kept[1..])
  }

  lemma TrimmedToNothing(s: string)
    ensures TrimSpace(s) == "" <==> AllSpace(s)
  {
    var m, n := TrimSpaceStretch(s);
    assert forall k :: 0 <= k < m ==> s[..m][k] == s[k];
    assert forall k :: n <= k < |s| ==> s[n..][k - n] == s[k];
    assert forall k :: 0 <= k < |TrimSpace(s)| ==> TrimSpace(s)[k] == s[m + k];
  }

  lemma TrimSpacePads(s: string)
    ensures Padded(s, TrimSpace(s)) && Trimmed(TrimSpace(s))
  {
    var m, n := TrimSpaceStretch(s);
  }

  /** The statements kept are exactly those. */
  lemma {:induction false} KeptIff(parts: seq<string>, kept: seq<string>)
    ensures Kept(parts, kept) <==> kept == KeepStatements(parts)
    decreases |parts|
  {
    if parts != [] {
      TrimmedToNothing(parts[0]);
      TrimSpacePads(parts[0]);
      if AllSpace(parts[0]) {
        KeptIff(parts[1..], kept);
        assert [] + KeepStatements(parts[1..]) == KeepStatements(parts[1..]);
      } else {
        var first, rest := TrimSpace(parts[0]), KeepStatements(parts[1..]);
        assert ([first] + rest)[1..] == rest;
        if kept != [] {
          KeptIff(parts[1..], kept[1..]);
          assert kept == [kept[0]] + kept[1..];
          if Padded(parts[0], kept[0]) && Trimmed(kept[0]) {
            TrimSpaceIsOnly(parts[0], kept[0]);
          }
        }
      }
    }
  }

  /** Line by line, what is kept of a text and the comments cut from it. */
  ghost predicate LinesKept(lines: seq<string>, kept: seq<string>) {
    |kept| == |lines| && forall k :: 0 <= k < |lines| ==> Uncommented(lines[k], kept[k])
  }

  function StripEach(lines: seq<string>): (kept: seq<string>)
    ensures |kept| == |lines| && forall k :: 0 <= k < |lines| ==> kept[k] == StripLine(lines[k])
  {
    seq(|lines|, k requires 0 <= k < |lines| => StripLine(lines[k]))
  }

  /** Each line with a line feed after it. */
  function Terminated(lines: seq<string>): string {
    if lines == [] then "" else lines[0] + "\n" + Terminated(lines[1..])
  }

  lemma {:induction false} StripIsTerminated(lines: seq<string>)
    ensures StripLines(lines) == Terminated(StripEach(lines))
  {
    if lines != [] {
      StripIsTerminated(lines[1..]);
      assert StripEach(lines)[1..] == StripEach(lines[1..]);
    }
  }

  /** `lines` and `parts` take the text apart with nothing left over: the lines joined are the text,
      each is what was kept of it and a comment, the parts joined are what was kept, and the
      statements are the parts without the white space at their ends. */
  ghost predicate Accounts(text: string, lines: seq<string>, kept: seq<string>, parts: seq<string>, statements: seq<string>) {
    && lines != [] && Join(lines, "\n") == text && (forall k :: 0 <= k < |lines| ==> '\n' !in lines[k])
    && LinesKept(lines, kept)
    && parts != [] && Join(parts, ";") == Terminated(kept) && (forall k :: 0 <= k < |parts| ==> ';' !in parts[k])
    && Kept(parts, statements)
  }

  lemma SplitsWithout(s: string, sep: char)
    ensures forall k :: 0 <= k < |Split(s, sep)| ==> sep !in Split(s, sep)[k]
  {
    forall k | 0 <= k < |Split(s, sep)|
      ensures sep !in Split(s, sep)[k]
    {
      SplitPieces(s, sep, k);
    }
  }

  /** Apart from comments, semicolons and the white space at the ends of statements, all text is kept,
      in its order, down to the last space inside a statement. */
  lemma NothingLost(text: string)
    ensures var lines := Split(text, '\n');
            Accounts(text, lines, StripEach(lines), Split(Strip(text), ';'), StatementsOf(text))
  {
    var lines := Split(text, '\n');
    JoinSplit(text, '\n');
    SplitsWithout(text, '\n');
    forall k | 0 <= k < |lines|
      ensures Uncommented(lines[k], StripLine(lines[k]))
    {
      StripLineUncomments(lines[k]);
    }
    StripIsTerminated(lines);
    JoinSplit(Strip(text), ';');
    SplitsWithout(Strip(text), ';');
    KeptIff(Split(Strip(text), ';'), StatementsOf(text));
  }

  /** And there is no other way to take a text apart like that: the statements are determined. */
  lemma OnlyOneParse(text: string, lines: seq<string>, kept: seq<string>, parts: seq<string>, statements: seq<string>)
    requires Accounts(text, lines, kept, parts, statements)
    ensures statements == StatementsOf(text)
  {
    SplitIsOnly(lines, '\n');
    forall k | 0 <= k < |lines|
      ensures kept[k] == StripLine(lines[k])
    {
      StripLineUncomments(lines[k]);
      UncommentedIsOnly(lines[k], kept[k], StripLine(lines[k]));
    }
    assert kept == StripEach(lines);
    StripIsTerminated(lines);
    SplitIsOnly(parts, ';');
    KeptIff(parts, statements);
  }

  // ---------------------------------------------------------------- splitting again

  lemma FirstLineKept(s: string)
    requires NoComment(s)
    ensures StripLine(Split(s, '\n')[0]) == Split(s, '\n')[0]
  {
    SplitPieces(s, '\n', 0);
    var n :| 0 <= n <= |s| && Split(s, '\n')[0] == s[0..n];
    StripLineNoComment(Split(s, '\n')[0]);
  }

  lemma {:induction false} StripWithoutComments(s: string)
    requires NoComment(s)
    ensures Strip(s) == s + "\n"
  {
    if s == "" {
      assert StripLines([""]) == StripLine("") + "\n" + StripLines([]);
    } else {
      assert NoComment(s[1..]);
      StripWithoutComments(s[1..]);
      FirstLineKept(s);
      FirstLineKept(s[1..]);
      StripGrows(s);
      assert s == [s[0]] + s[1..];
    }
  }

  lemma StripGrows(s: string)
    requires s != ""
    requires StripLine(Split(s, '\n')[0]) == Split(s, '\n')[0]
    requires StripLine(Split(s[1..], '\n')[0]) == Split(s[1..], '\n')[0]
    ensures Strip(s) == [s[0]] + Strip(s[1..])
  {
    var rest := Split(s[1..], '\n');
    if s[0] == '\n' {
      assert ([""] + rest)[1..] == rest;
      assert StripLine("") + "\n" == "\n";
    } else {
      StripLonger(rest, s[0]);
    }
  }

  lemma StripLinesCons(line: string, rest: seq<string>)
    ensures StripLines([line] + rest) == StripLine(line) + "\n" + StripLines(rest)
  {
    assert ([line] + rest)[1..] == rest;
  }

  lemma ConcatShift(c: char, a: string, b: string)
    ensures ([c] + a) + "\n" + b == [c] + (a + "\n" + b)
  {
  }

  lemma StripLonger(rest: seq<string>, c: char)
    requires rest != [] && StripLine(rest[0]) == rest[0] && StripLine([c] + rest[0]) == [c] + rest[0]
    ensures StripLines([[c] + rest[0]] + rest[1..]) == [c] + StripLines(rest)
  {
    StripLinesCons([c] + rest[0], rest[1..]);
    StripLinesCons(rest[0], rest[1..]);
    assert rest == [rest[0]] + rest[1..];
    ConcatShift(c, rest[0], StripLines(rest[1..]));
  }

  ghost predicate AllWellFormed(rs: seq<string>) {
    forall k :: 0 <= k < |rs| ==> WellFormed(rs[k])
  }

  lemma {:induction false} JoinNoComment(rs: seq<string>)
    requires AllWellFormed(rs)
    ensures NoComment(Join(rs, ";\n"))
  {
    if |rs| > 1 {
      assert WellFormed(rs[0]);
      JoinNoComment(rs[1..]);
      var a := rs[0] + ";";
      assert NoComment(a);
      NoCommentAcrossLines(a, Join(rs[1..], ";\n"));
      assert rs[0] + ";\n" + Join(rs[1..], ";\n") == a + "\n" + Join(rs[1..], ";\n");
    } else if |rs| == 1 {
      assert WellFormed(rs[0]);
    }
  }

  lemma TrimAround(lead: string, r: string)
    requires WellFormed(r) && (lead == "" || lead == "\n")
    ensures TrimSpace(lead + r) == r && TrimSpace(lead + r + "\n") == r
    ensures ';' !in lead + r && ';' !in lead + r + "\n"
  {
    TrimSpaceUndoesLineFeeds(r);
    if lead == "" {
      assert lead + r == r;
    }
  }

  lemma {:induction false} SplitJoined(rs: seq<string>, lead: string)
    requires AllWellFormed(rs) && rs != [] && (lead == "" || lead == "\n")
    ensures KeepStatements(Split(lead + Join(rs, ";\n") + "\n", ';')) == rs
  {
    var r := rs[0];
    assert WellFormed(r);
    TrimAround(lead, r);
    if |rs| == 1 {
      var s := lead + r + "\n";
      SplitAtNone(s, ';');
      KeepStatementsAppend([], s);
      assert [] + [s] == [s];
    } else {
      var rest := "\n" + Join(rs[1..], ";\n") + "\n";
      JoinedSplits(rs, lead);
      SplitAtFirst(lead + r, rest, ';');
      SplitJoined(rs[1..], "\n");
      assert ([lead + r] + Split(rest, ';'))[1..] == Split(rest, ';');
      assert rs == [r] + rs[1..];
    }
  }

  lemma JoinedSplits(rs: seq<string>, lead: string)
    requires |rs| > 1
    ensures lead + Join(rs, ";\n") + "\n" == (lead + rs[0]) + [';'] + ("\n" + Join(rs[1..], ";\n") + "\n")
  {
  }

  /** Any list of well-formed statements survives being joined and split again. */
  lemma SplitUndoesJoin(rs: seq<string>)
    requires AllWellFormed(rs)
    ensures StatementsOf(Join(rs, ";\n")) == rs
  {
    JoinNoComment(rs);
    StripWithoutComments(Join(rs, ";\n"));
    if rs == [] {
      SplitAtNone("\n", ';');
      assert TrimLeft("\n") == TrimLeft("\n"[1..]) == "";
      assert KeepStatements(["\n"]) == [] + KeepStatements([]);
    } else {
      SplitJoined(rs, "");
      assert "" + Join(rs, ";\n") == Join(rs, ";\n");
    }
  }

  /** Splitting is a stable parse: joining what it found and splitting again gives the same list. */
  lemma SplittingIsStable(text: string)
    ensures StatementsOf(Join(StatementsOf(text), ";\n")) == StatementsOf(text)
  {
    StatementsWellFormed(text);
    SplitUndoesJoin(StatementsOf(text));
  }
}
