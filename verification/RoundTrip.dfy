/** Printing the normalized machine back to text, and reading the print again. */
module RoundTrip {
  import opened Options
  import opened Text
  import opened MachineText
  import opened Hierarchy
  import opened Hoisting

  const MARKER := "## transitions"
  const TABLE_HEADER := "|" + " Source " + "|" + " Event | Guard | Target | Action " + "|"
  const TABLE_RULE := "|" + "---" + "|" + "---|---|---|---" + "|"

  predicate Nested(states: seq<State>) {
    exists i :: 0 <= i < |states| && states[i].parent.Some?
  }

  /** What precedes the first marker, or everything. */
  function Head(orcaMd: string): string {
    match IndexOf(orcaMd, MARKER)
    case Some(i) => orcaMd[..i]
    case None => orcaMd
  }

  /** The head ends where the marker first occurs, or is the whole text. */
  lemma HeadEndsAtMarker(orcaMd: string)
    ensures Head(orcaMd) <= orcaMd
    ensures forall i :: 0 <= i < |Head(orcaMd)| ==> !StartsWith(orcaMd[i..], MARKER)
    ensures Head(orcaMd) == orcaMd || StartsWith(orcaMd[|Head(orcaMd)|..], MARKER)
  {
  }

  function RenderRow(t: Transition): string {
    "| " + t.source + " | " + t.event + " | | " + t.target + " | |"
  }

  function RenderRows(ts: seq<Transition>): (r: seq<string>)
    ensures |r| == |ts|
  {
    if ts == [] then [] else [RenderRow(ts[0])] + RenderRows(ts[1..])
  }

  /** The lines between the head and the rows. */
  function Preamble(): (lines: seq<string>)
    ensures lines != []
  {
    [""] + ([MARKER] + ([TABLE_HEADER] + ([TABLE_RULE] + [])))
  }

  function Printed(head: string, preamble: seq<string>, ts: seq<Transition>): string {
    Join("\n", [RStrip(head)] + preamble + RenderRows(ts)) + "\n"
  }

  function StatesOf(orcaMd: string): seq<State> {
    Declared(Headings(SplitLines(orcaMd)))
  }

  function TransitionsOf(orcaMd: string): seq<Transition> {
    Rows(SplitLines(orcaMd))
  }

  function Normalized(orcaMd: string): string {
    if Nested(StatesOf(orcaMd))
    then Printed(Head(orcaMd), Preamble(), Hoisted(StatesOf(orcaMd), TransitionsOf(orcaMd)))
    else orcaMd
  }

  method NormalizeForVerification(orcaMd: string) returns (text: string)
    ensures text == Normalized(orcaMd)
  {
    var states, transitions := ParseMachine(orcaMd);
    if states == [] || !(exists i :: 0 <= i < |states| && states[i].parent.Some?) {
      return orcaMd;
    }
    var norm := HoistTransitions(states, transitions);
    var lines := [RStrip(Head(orcaMd))] + Preamble();
    lines := lines + RenderRows(norm);
    text := Join("\n", lines) + "\n";
  }

  // ----- whitespace at the end of a line does not matter -----

  lemma SpanSnoc(s: string, c: char, p: char -> bool)
    requires !p(c)
    ensures Span(s + [c], p) == Span(s, p)
  {
    SpanIsLongest(s, p);
    SpanUnique(s + [c], p, Span(s, p));
  }

  lemma SpanSnocIn(s: string, c: char, p: char -> bool)
    requires p(c)
    ensures Span(s + [c], p) == if Span(s, p) == |s| then |s| + 1 else Span(s, p)
  {
    SpanIsLongest(s, p);
    SpanUnique(s + [c], p, if Span(s, p) == |s| then |s| + 1 else Span(s, p));
  }

  lemma {:induction false} LStripSnoc(s: string, c: char)
    requires IsSpace(c)
    ensures LStrip(s + [c]) == if LStrip(s) == "" then "" else LStrip(s) + [c]
  {
    if s == "" {
      assert LStrip([c]) == LStrip([c][1..]) == "";
    } else {
      assert (s + [c])[1..] == s[1..] + [c];
      if IsSpace(s[0]) {
        LStripSnoc(s[1..], c);
      }
    }
  }

  lemma ContainsSnoc(s: string, c: char, p: string)
    requires p != "" && c != p[|p| - 1]
    ensures Contains(s + [c], p) <==> Contains(s, p)
  {
    if Contains(s, p) {
      var i :| 0 <= i <= |s| && StartsWith(s[i..], p);
      assert (s + [c])[i..] == s[i..] + [c];
      assert StartsWith((s + [c])[i..], p);
    }
    if Contains(s + [c], p) {
      var i :| 0 <= i <= |s + [c]| && StartsWith((s + [c])[i..], p);
      assert p[|p| - 1] == (s + [c])[i..][|p| - 1] == (s + [c])[i + |p| - 1];
      assert i <= |s| && (s + [c])[i..] == s[i..] + [c];
      assert StartsWith(s[i..], p);
    }
  }

  lemma RowSnoc(s: string, c: char)
    requires IsSpace(c)
    ensures MatchRow(s + [c]) == MatchRow(s)
  {
    ContainsSnoc(s, c, "-->");
    assert (s + [c])[..|s|] == s;
    assert RStrip(s + [c]) == RStrip(s);
  }

  lemma AnnotationSnoc(level: nat, id: string, rest: string, c: char)
    requires IsSpace(c) && rest != ""
    ensures MatchAnnotation(level, id, rest + [c]) == MatchAnnotation(level, id, rest)
  {
    assert (rest + [c])[1..] == rest[1..] + [c];
    SpanSnocIn(rest[1..], c, x => x != ']');
    var n := Span(rest[1..], x => x != ']');
    if n < |rest| - 1 {
      assert (rest + [c])[n + 2..] == rest[n + 2..] + [c];
      AllSpaceSnoc(rest[n + 2..], c);
      assert (rest + [c])[1..n + 1] == rest[1..n + 1];
    }
  }

  lemma AllSpaceSnoc(s: string, c: char)
    requires IsSpace(c)
    ensures AllSpace(s + [c]) <==> AllSpace(s)
  {
    if AllSpace(s + [c]) {
      forall i | 0 <= i < |s| ensures IsSpace(s[i]) {
        assert (s + [c])[i] == s[i];
      }
    }
  }

  lemma NameSnoc(level: nat, afterWord: string, c: char)
    requires IsSpace(c)
    ensures MatchName(level, afterWord + [c]) == MatchName(level, afterWord)
  {
    if afterWord == "" {
      assert LStrip([c]) == LStrip([c][1..]) == "";
    } else if IsSpace(afterWord[0]) {
      LStripSnoc(afterWord, c);
      var name := LStrip(afterWord);
      if name != "" {
        SpanSnoc(name, c, IsIdChar);
        var n := Span(name, IsIdChar);
        assert (name + [c])[n..] == name[n..] + [c] && (name + [c])[..n] == name[..n];
        LStripSnoc(name[n..], c);
        if LStrip(name[n..]) != "" {
          AnnotationSnoc(level, name[..n], LStrip(name[n..]), c);
        }
      }
    }
  }

  lemma HeadingSnoc(s: string, c: char)
    requires IsSpace(c)
    ensures MatchHeading(s + [c]) == MatchHeading(s)
  {
    SpanSnoc(s, c, x => x == '#');
    var level := Span(s, x => x == '#');
    assert (s + [c])[level..] == s[level..] + [c];
    if s[level..] == "" {
      assert LStrip([c]) == LStrip([c][1..]) == "";
    } else {
      LStripSnoc(s[level..], c);
      var rest := LStrip(s[level..]);
      assert StartsWith(rest + [c], "state") <==> StartsWith(rest, "state") by {
        if |rest| == 4 {
          assert (rest + [c])[4] != "state"[4];
        } else if |rest| >= 5 {
          assert (rest + [c])[..5] == rest[..5];
        }
      }
      if StartsWith(rest, "state") {
        assert (rest + [c])[5..] == rest[5..] + [c];
        NameSnoc(level, rest[5..], c);
      }
    }
  }

  ghost predicate IgnoresTrailingSpace<B(!new)>(f: string -> Option<B>) {
    && f("") == None
    && forall s: string, c: char :: IsSpace(c) ==> f(s + [c]) == f(s)
  }

  lemma MatchersIgnoreTrailingSpace()
    ensures IgnoresTrailingSpace(MatchHeading) && IgnoresTrailingSpace(MatchRow)
  {
    forall s: string, c: char | IsSpace(c) ensures MatchHeading(s + [c]) == MatchHeading(s) {
      HeadingSnoc(s, c);
    }
    forall s: string, c: char | IsSpace(c) ensures MatchRow(s + [c]) == MatchRow(s) {
      RowSnoc(s, c);
    }
  }

  function Accepted<B>(f: string -> Option<B>, line: string): seq<B> {
    match f(line) case Some(b) => [b] case None => []
  }

  lemma CollectCons<B>(f: string -> Option<B>, line: string, rest: seq<string>)
    ensures Collect(f, [line] + rest) == Accepted(f, line) + Collect(f, rest)
  {
    CollectConcat(f, [line], rest);
    assert Collect(f, [line]) == Accepted(f, line) by {
      assert [line][..0] == [];
    }
  }

  /** Whitespace after the last character read adds nothing any matcher accepts. */
  lemma {:induction false} SpaceAddsNothing<B(!new)>(f: string -> Option<B>, line: string, afterReturn: bool,
                                              ws: string)
    requires IgnoresTrailingSpace(f) && AllSpace(ws)
    requires afterReturn ==> line == ""
    ensures Collect(f, LinesFrom(line, afterReturn, ws)) == Accepted(f, line)
    decreases ws
  {
    if ws == "" {
      CollectCons(f, line, []);
      assert [line] + [] == [line];
    } else {
      var c, rest := ws[0], ws[1..];
      if afterReturn && c == '\n' {
        SpaceAddsNothing(f, "", false, rest);
      } else if IsBreak(c) {
        SpaceAddsNothing(f, "", c == '\r', rest);
        CollectCons(f, line, LinesFrom("", c == '\r', rest));
      } else {
        SpaceAddsNothing(f, line + [c], false, rest);
        assert f(line + [c]) == f(line);
      }
    }
  }

  lemma {:induction false} TrailingSpaceAddsNothing<B(!new)>(f: string -> Option<B>, line: string, afterReturn: bool,
                                                             s: string, ws: string)
    requires IgnoresTrailingSpace(f) && AllSpace(ws)
    requires afterReturn ==> line == ""
    ensures Collect(f, LinesFrom(line, afterReturn, s + ws)) == Collect(f, LinesFrom(line, afterReturn, s))
    decreases s
  {
    if s == "" {
      assert s + ws == ws;
      SpaceAddsNothing(f, line, afterReturn, ws);
      SpaceAddsNothing(f, line, afterReturn, "");
    } else {
      var c, rest := s[0], s[1..];
      assert (s + ws)[0] == c && (s + ws)[1..] == rest + ws;
      if afterReturn && c == '\n' {
        TrailingSpaceAddsNothing(f, "", false, rest, ws);
      } else if IsBreak(c) {
        TrailingSpaceAddsNothing(f, "", c == '\r', rest, ws);
        CollectCons(f, line, LinesFrom("", c == '\r', rest + ws));
        CollectCons(f, line, LinesFrom("", c == '\r', rest));
      } else {
        TrailingSpaceAddsNothing(f, line + [c], false, rest, ws);
      }
    }
  }

  lemma RStripKeepsAccepted<B(!new)>(f: string -> Option<B>, s: string)
    requires IgnoresTrailingSpace(f)
    ensures Collect(f, SplitLines(RStrip(s))) == Collect(f, SplitLines(s))
  {
    RStripDropsSpace(s);
    var r := RStrip(s);
    assert s == r + s[|r|..];
    TrailingSpaceAddsNothing(f, "", false, r, s[|r|..]);
  }

  // ----- a printed row reads back as its transition -----

  /** Text that a table cell can carry unharmed. */
  ghost predicate CleanCell(x: string) {
    '|' !in x && Strip(x) == x && NoBreaks(x) && !Contains(x, "-->")
  }

  lemma Spaced(a: string, b: string)
    requires !Contains(a, "-->") && !Contains(b, "-->")
    ensures !Contains(a + " " + b, "-->")
  {
    if Contains(a + " " + b, "-->") {
      ContainsAcross(a, ' ', b, "-->");
    }
  }

  lemma JoinFour(sep: string, a: string, b: string, c: string, d: string)
    ensures Join(sep, [a, b, c, d]) == a + sep + b + sep + c + sep + d
  {
    JoinCons(sep, c, [d]);
    JoinCons(sep, b, [c, d]);
    JoinCons(sep, a, [b, c, d]);
    assert [c] + [d] == [c, d] && [b] + [c, d] == [b, c, d] && [a] + [b, c, d] == [a, b, c, d];
  }

  lemma RowWords(t: Transition)
    ensures RenderRow(t)
         == "|" + " " + (t.source + " " + ("|" + " " + (t.event + " " + ("| |" + " " + (t.target + " " + "| |")))))
  {
  }

  lemma RowHasNoArrow(t: Transition)
    requires CleanCell(t.source) && CleanCell(t.event) && CleanCell(t.target)
    ensures !Contains(RenderRow(t), "-->")
  {
    var bars := "| |";
    Spaced("|", "|");
    assert "|" + " " + "|" == bars;
    Spaced(t.target, bars);
    var r1 := t.target + " " + bars;
    Spaced(bars, r1);
    var r2 := bars + " " + r1;
    Spaced(t.event, r2);
    var r3 := t.event + " " + r2;
    Spaced("|", r3);
    var r4 := "|" + " " + r3;
    Spaced(t.source, r4);
    Spaced("|", t.source + " " + r4);
    RowWords(t);
  }

  lemma RowInside(t: Transition)
    ensures var row := RenderRow(t);
            row[1..|row| - 1]
            == (" " + t.source + " ") + "|"
               + ((" " + t.event + " ") + "|" + " " + "|" + (" " + t.target + " ") + "|" + " ")
  {
  }

  lemma RowSplits(t: Transition)
    requires CleanCell(t.source) && CleanCell(t.event) && CleanCell(t.target)
    ensures var row := RenderRow(t);
            SplitOn(row[1..|row| - 1], '|')
              == [" " + t.source + " ", " " + t.event + " ", " ", " " + t.target + " ", " "]
  {
    RowInside(t);
    var c0, c1, c3 := " " + t.source + " ", " " + t.event + " ", " " + t.target + " ";
    JoinFour("|", c1, " ", c3, " ");
    JoinCons("|", c0, [c1, " ", c3, " "]);
    SplitJoin('|', [c0] + [c1, " ", c3, " "]);
  }

  lemma StripAllFive(a: string, b: string, c: string, d: string, e: string)
    ensures StripAll([a, b, c, d, e]) == [Strip(a), Strip(b), Strip(c), Strip(d), Strip(e)]
  {
    assert [a, b, c, d, e][1..] == [b, c, d, e];
    assert [b, c, d, e][1..] == [c, d, e];
    assert [c, d, e][1..] == [d, e];
    assert [d, e][1..] == [e];
    assert StripAll([d, e]) == [Strip(d), Strip(e)];
    assert StripAll([c, d, e]) == [Strip(c), Strip(d), Strip(e)];
  }

  lemma RowCells(t: Transition)
    requires CleanCell(t.source) && CleanCell(t.event) && CleanCell(t.target)
    ensures var row := RenderRow(t);
            StripAll(SplitOn(row[1..|row| - 1], '|')) == [t.source, t.event, "", t.target, ""]
  {
    RowSplits(t);
    StripAllFive(" " + t.source + " ", " " + t.event + " ", " ", " " + t.target + " ", " ");
    StripOuter(" ", t.source, " ");
    StripOuter(" ", t.event, " ");
    StripOuter(" ", t.target, " ");
    StripOuter(" ", "", "");
    assert " " + "" + "" == " ";
  }

  /** A source cell the reader takes for the header of the table. */
  predicate ReadsAsHeader(source: string) {
    ToLower(source) == "source"
  }

  /** The printed row of a transition with clean cells reads back as that transition, unless its source is
      called like the header. */
  lemma RowReadsBack(t: Transition)
    requires CleanCell(t.source) && CleanCell(t.event) && CleanCell(t.target)
    requires t.source != "" && !RuleOnly(t.source)
    ensures MatchRow(RenderRow(t)) == if ReadsAsHeader(t.source) then None else Some(t)
    ensures MatchHeading(RenderRow(t)) == None
  {
    var row := RenderRow(t);
    RowEnds(t);
    RowHasNoArrow(t);
    RowCells(t);
    var cells := [t.source, t.event, "", t.target, ""];
    assert MatchRow(row) == RowOfCells(cells);
  }

  lemma RowEnds(t: Transition)
    ensures var row := RenderRow(t); RStrip(row) == row && TableRow(row) && row[0] == '|'
  {
  }

  // ----- the cells of parsed and lifted transitions are clean -----

  lemma {:induction false} SplitOnKeepsOut(s: string, c: char, p: string)
    requires !Contains(s, p) && NoBreaks(s)
    ensures forall piece :: piece in SplitOn(s, c) ==> !Contains(piece, p) && NoBreaks(piece)
    decreases |s|
  {
    var n := Span(s, x => x != c);
    if n < |s| {
      SliceKeepsOut(s, 0, n, p);
      assert s[0..n] == s[..n];
      SliceKeepsOut(s, n + 1, |s|, p);
      assert s[n + 1..|s|] == s[n + 1..];
      SplitOnKeepsOut(s[n + 1..], c, p);
    }
  }

  lemma SliceKeepsOut(s: string, lo: nat, hi: nat, p: string)
    requires lo <= hi <= |s| && !Contains(s, p) && NoBreaks(s)
    ensures !Contains(s[lo..hi], p) && NoBreaks(s[lo..hi])
  {
    if Contains(s[lo..hi], p) {
      SliceContains(s, lo, hi, p);
    }
  }

  lemma StripIsSlice(s: string)
    ensures exists lo, hi :: 0 <= lo <= hi <= |s| && Strip(s) == s[lo..hi]
  {
    LStripDropsSpace(s);
    RStripDropsSpace(LStrip(s));
    var lo := |s| - |LStrip(s)|;
    TakeOfDrop(s, lo, |Strip(s)|);
    assert Strip(s) == s[lo..lo + |Strip(s)|];
  }

  lemma StrippedCellClean(s: string)
    requires '|' !in s && NoBreaks(s) && !Contains(s, "-->")
    ensures CleanCell(Strip(s))
  {
    StripIsSlice(s);
    var lo, hi :| 0 <= lo <= hi <= |s| && Strip(s) == s[lo..hi];
    SliceKeepsOut(s, lo, hi, "-->");
    StripEnds(s);
  }

  lemma {:induction false} StripAllClean(cells: seq<string>)
    requires forall x :: x in cells ==> '|' !in x && NoBreaks(x) && !Contains(x, "-->")
    ensures forall i :: 0 <= i < |cells| ==> CleanCell(StripAll(cells)[i])
  {
    if cells != [] {
      StrippedCellClean(cells[0]);
      StripAllClean(cells[1..]);
    }
  }

  ghost predicate Printable(t: Transition) {
    CleanCell(t.source) && CleanCell(t.event) && CleanCell(t.target) && t.source != "" && !RuleOnly(t.source)
  }

  lemma InnerSlice(s: string, n: nat)
    requires 2 <= n <= |s|
    ensures s[..n][1..n - 1] == s[1..n - 1]
  {
  }

  lemma ParsedRowPrintable(raw: string)
    requires NoBreaks(raw) && MatchRow(raw).Some?
    ensures Printable(MatchRow(raw).value) && !ReadsAsHeader(MatchRow(raw).value.source)
  {
    RStripDropsSpace(raw);
    var row := RStrip(raw);
    SliceKeepsOut(raw, 1, |row| - 1, "-->");
    assert row == raw[..|row|];
    InnerSlice(raw, |row|);
    var cells := SplitOn(row[1..|row| - 1], '|');
    SplitOnKeepsOut(row[1..|row| - 1], '|', "-->");
    PiecesLackSeparator(row[1..|row| - 1], '|');
    StripAllClean(cells);
    assert CleanCell(StripAll(cells)[0]) && CleanCell(StripAll(cells)[1]) && CleanCell(StripAll(cells)[3]);
  }

  lemma {:induction false} ParsedRowsPrintable(lines: seq<string>)
    requires forall line :: line in lines ==> NoBreaks(line)
    ensures forall t :: t in Rows(lines) ==> Printable(t) && !ReadsAsHeader(t.source)
  {
    if lines != [] {
      var n := |lines| - 1;
      ParsedRowsPrintable(lines[..n]);
      assert lines[n] in lines;
      if MatchRow(lines[n]).Some? {
        ParsedRowPrintable(lines[n]);
      }
    }
  }

  lemma ContainsFirst(s: string, p: string)
    requires p != "" && Contains(s, p)
    ensures p[0] in s
  {
  }

  lemma IdentifierClean(x: string)
    requires IsIdentifier(x)
    ensures CleanCell(x) && x != "" && !RuleOnly(x)
  {
    assert IsIdChar(x[0]);
    if Contains(x, "-->") {
      ContainsFirst(x, "-->");
    }
    assert LStrip(x) == x;
    assert IsIdChar(x[|x| - 1]);
  }

  lemma HeadingIdIsIdentifier(raw: string)
    requires MatchHeading(raw).Some?
    ensures IsIdentifier(MatchHeading(raw).value.id)
  {
    var level := Span(raw, c => c == '#');
    var name := LStrip(LStrip(raw[level..])[5..]);
    SpanIsLongest(name, IsIdChar);
  }

  lemma {:induction false} HeadingIdsAreIdentifiers(lines: seq<string>)
    ensures forall h :: h in Headings(lines) ==> IsIdentifier(h.id)
  {
    if lines != [] {
      var n := |lines| - 1;
      HeadingIdsAreIdentifiers(lines[..n]);
      if MatchHeading(lines[n]).Some? {
        HeadingIdIsIdentifier(lines[n]);
      }
    }
  }

  lemma ParentsAreIdentifiers(lines: seq<string>, sid: string)
    ensures var p := ParentOf(Declared(Headings(lines)), sid); p.Some? ==> IsIdentifier(p.value)
  {
    var hs := Headings(lines);
    HeadingIdsAreIdentifiers(lines);
    ParentOfDeclared(Declared(hs), sid);
    if ParentOf(Declared(hs), sid).Some? {
      var i :| 0 <= i < |hs| && Declared(hs)[i].parent == ParentOf(Declared(hs), sid);
      DeclaredAt(hs, i);
      assert ParentAfter(hs[..i], hs[i].level).Some?;
      var j := EnclosingBelow(hs[..i], hs[i].level, i).value;
      assert hs[..i][j] == hs[j] && hs[j] in hs;
    }
  }

  /** What the normalizer prints, it prints in cells that survive; only a lifted source can be called like the
      header. */
  lemma HoistedPrintable(orcaMd: string, u: Transition)
    requires u in Hoisted(StatesOf(orcaMd), TransitionsOf(orcaMd))
    ensures Printable(u)
  {
    var states, ts := StatesOf(orcaMd), TransitionsOf(orcaMd);
    InHoisted(states, ts);
    var t :| t in ts && u == Lift(states, t);
    LinesHaveNoBreaks("", false, orcaMd);
    ParsedRowsPrintable(SplitLines(orcaMd));
    if Crossing(states, t) {
      ParentsAreIdentifiers(SplitLines(orcaMd), t.source);
      IdentifierClean(u.source);
    }
  }

  // ----- reading the printed machine -----

  lemma FirstCellRejects(row: string, cell: string, rest: string)
    requires row == "|" + cell + "|" + rest + "|" && '|' !in cell
    requires ReadsAsHeader(Strip(cell)) || RuleOnly(Strip(cell))
    ensures MatchRow(row) == None
  {
    assert row[|row| - 1] == '|';
    assert RStrip(row) == row;
    assert row[1..|row| - 1] == cell + "|" + rest;
    SplitOnFirst(cell, '|', rest);
    var cells := SplitOn(cell + "|" + rest, '|');
    assert StripAll(cells)[0] == Strip(cell);
  }

  lemma SourceReadsAsHeader()
    ensures ReadsAsHeader("Source")
  {
  }

  lemma HeaderIsNoRow()
    ensures MatchRow(TABLE_HEADER) == None
  {
    SourceReadsAsHeader();
    StripOuter(" ", "Source", " ");
    assert " " + "Source" + " " == " Source ";
    FirstCellRejects(TABLE_HEADER, " Source ", " Event | Guard | Target | Action ");
  }

  lemma RuleIsNoRow()
    ensures MatchRow(TABLE_RULE) == None
  {
    assert Strip("---") == "---" && RuleOnly("---");
    FirstCellRejects(TABLE_RULE, "---", "---|---|---|---");
  }

  lemma OtherWordNoHeading(raw: string, word: string)
    requires raw == "## " + word && word != "" && !IsSpace(word[0]) && word[0] != 's'
    ensures MatchHeading(raw) == None
  {
    SpanUnique(raw, c => c == '#', 2);
    assert raw[2..] == " " + word;
    assert (" " + word)[1..] == word;
    assert LStrip(" " + word) == word;
  }

  lemma MarkerRejected()
    ensures MatchHeading(MARKER) == None && MatchRow(MARKER) == None
  {
    var word := "transitions";
    assert MARKER == "## " + word && word[0] == 't';
    OtherWordNoHeading(MARKER, word);
  }

  lemma HeaderRejected()
    ensures MatchHeading(TABLE_HEADER) == None && MatchRow(TABLE_HEADER) == None
  {
    HeaderIsNoRow();
  }

  lemma RuleRejected()
    ensures MatchHeading(TABLE_RULE) == None && MatchRow(TABLE_RULE) == None
  {
    RuleIsNoRow();
  }

  /** Lines that are neither states nor transitions. */
  ghost predicate AllRejected(lines: seq<string>) {
    forall line :: line in lines ==> MatchHeading(line) == None && MatchRow(line) == None
  }

  ghost predicate AllSingleLines(lines: seq<string>) {
    forall line :: line in lines ==> NoBreaks(line)
  }

  lemma RejectedCons(line: string, lines: seq<string>)
    requires MatchHeading(line) == None && MatchRow(line) == None && AllRejected(lines)
    ensures AllRejected([line] + lines)
  {
  }

  lemma PreambleRejected()
    ensures AllRejected(Preamble())
  {
    RuleRejected();
    RejectedCons(TABLE_RULE, []);
    HeaderRejected();
    RejectedCons(TABLE_HEADER, [TABLE_RULE] + []);
    MarkerRejected();
    RejectedCons(MARKER, [TABLE_HEADER] + ([TABLE_RULE] + []));
    RejectedCons("", [MARKER] + ([TABLE_HEADER] + ([TABLE_RULE] + [])));
  }

  lemma HeaderNoBreaks()
    ensures NoBreaks(TABLE_HEADER)
  {
  }

  lemma RuleNoBreaks()
    ensures NoBreaks(TABLE_RULE)
  {
  }

  lemma PreambleSingleLines()
    ensures AllSingleLines(Preamble())
  {
    HeaderNoBreaks();
    RuleNoBreaks();
  }

  lemma {:induction false} SplitTerminated(lines: seq<string>)
    requires lines != [] && forall line :: line in lines ==> NoBreaks(line)
    ensures SplitLines(Join("\n", lines) + "\n") == lines
  {
    var first, rest := lines[0], lines[1..];
    assert lines == [first] + rest;
    assert NoBreaks(first);
    if rest == [] {
      SplitLinesCons(first, "");
      assert first + "\n" + "" == first + "\n";
    } else {
      SplitTerminated(rest);
      SplitLinesCons(first, Join("\n", rest) + "\n");
      assert Join("\n", lines) + "\n" == first + "\n" + (Join("\n", rest) + "\n");
    }
  }

  lemma RowNoBreaks(t: Transition)
    requires Printable(t)
    ensures NoBreaks(RenderRow(t))
  {
  }

  /** The lines of the print: those of its stripped head, then all lines appended to it. */
  lemma PrintedLines(head: string, preamble: seq<string>, ts: seq<Transition>)
    requires preamble != [] && AllSingleLines(preamble) && forall t :: t in ts ==> Printable(t)
    ensures SplitLines(Printed(head, preamble, ts)) == SplitLines(RStrip(head) + "\n") + (preamble + RenderRows(ts))
  {
    var h, lines := RStrip(head), preamble + RenderRows(ts);
    RenderedNoBreaks(ts);
    assert [h] + preamble + RenderRows(ts) == [h] + lines;
    JoinCons("\n", h, lines);
    var tail := Join("\n", lines) + "\n";
    assert Printed(head, preamble, ts) == (h + "\n") + tail;
    SplitLinesConcat(h + "\n", tail);
    SplitTerminated(lines);
  }

  lemma FourLines<T>(a: T, b: T, c: T, d: T)
    ensures [a] + ([b] + ([c] + ([d] + []))) == [a, b, c, d]
  {
  }

  /** The copy of a nested machine, line by line: the head without whitespace at its end, an empty line, the marker, the
      table's header and rule, and a row for each hoisted transition. */
  lemma NormalizedLines(orcaMd: string)
    requires Nested(StatesOf(orcaMd))
    ensures SplitLines(Normalized(orcaMd))
         == SplitLines(RStrip(Head(orcaMd)) + "\n")
            + (["", MARKER, TABLE_HEADER, TABLE_RULE]
               + RenderRows(Hoisted(StatesOf(orcaMd), TransitionsOf(orcaMd))))
  {
    var norm := Hoisted(StatesOf(orcaMd), TransitionsOf(orcaMd));
    forall u | u in norm ensures Printable(u) {
      HoistedPrintable(orcaMd, u);
    }
    PreambleSingleLines();
    PrintedLines(Head(orcaMd), Preamble(), norm);
    FourLines("", MARKER, TABLE_HEADER, TABLE_RULE);
  }

  /** A text in which no heading is below an earlier one is returned as it is. */
  lemma FlatUnchanged(orcaMd: string)
    requires var hs := Headings(SplitLines(orcaMd)); forall i, j :: 0 <= i < j < |hs| ==> hs[i].level >= hs[j].level
    ensures Normalized(orcaMd) == orcaMd
  {
    var hs := Headings(SplitLines(orcaMd));
    forall i | 0 <= i < |hs| ensures Declared(hs)[i].parent == None {
      ParentIsNearestSmaller(hs, i);
    }
  }

  /** What a matcher finds in the print: what it finds in the head, then what it finds in the new rows. */
  lemma PrintedAccepted<B(!new)>(f: string -> Option<B>, head: string, preamble: seq<string>, ts: seq<Transition>)
    requires IgnoresTrailingSpace(f) && preamble != []
    requires AllSingleLines(preamble) && forall line :: line in preamble ==> f(line) == None
    requires forall t :: t in ts ==> Printable(t)
    ensures Collect(f, SplitLines(Printed(head, preamble, ts)))
         == Collect(f, SplitLines(head)) + Collect(f, RenderRows(ts))
  {
    PrintedLines(head, preamble, ts);
    PreambleIgnored(f, SplitLines(RStrip(head) + "\n"), preamble, RenderRows(ts));
    HeadAccepted(f, head);
  }

  lemma PreambleIgnored<A(!new), B(!new)>(f: A -> Option<B>, before: seq<A>, preamble: seq<A>, after: seq<A>)
    requires forall line :: line in preamble ==> f(line) == None
    ensures Collect(f, before + (preamble + after)) == Collect(f, before) + Collect(f, after)
  {
    CollectConcat(f, before, preamble + after);
    CollectConcat(f, preamble, after);
    CollectNone(f, preamble);
    assert [] + Collect(f, after) == Collect(f, after);
  }

  lemma HeadAccepted<B(!new)>(f: string -> Option<B>, head: string)
    requires IgnoresTrailingSpace(f)
    ensures Collect(f, SplitLines(RStrip(head) + "\n")) == Collect(f, SplitLines(head))
  {
    RStripDropsSpace(head);
    LinesTerminated("", false, RStrip(head));
    CollectNone(f, [""]);
    RStripKeepsAccepted(f, head);
  }

  lemma {:induction false} RenderedNoBreaks(ts: seq<Transition>)
    requires forall t :: t in ts ==> Printable(t)
    ensures forall line :: line in RenderRows(ts) ==> NoBreaks(line)
  {
    if ts != [] {
      RowNoBreaks(ts[0]);
      RenderedNoBreaks(ts[1..]);
    }
  }

  /** The transitions whose source is not called like the table header. */
  function NotHeaders(ts: seq<Transition>): seq<Transition> {
    if ts == [] then []
    else (if ReadsAsHeader(ts[0].source) then [] else [ts[0]]) + NotHeaders(ts[1..])
  }

  lemma {:induction false} RenderedRowsRead(ts: seq<Transition>)
    requires forall t :: t in ts ==> Printable(t)
    ensures Rows(RenderRows(ts)) == NotHeaders(ts)
    ensures Headings(RenderRows(ts)) == []
  {
    if ts != [] {
      assert ts[0] in ts && Printable(ts[0]);
      RowReadsBack(ts[0]);
      RenderedRowsRead(ts[1..]);
      CollectCons(MatchRow, RenderRow(ts[0]), RenderRows(ts[1..]));
      CollectCons(MatchHeading, RenderRow(ts[0]), RenderRows(ts[1..]));
    }
  }

  lemma HeadingsOfPrint(head: string, preamble: seq<string>, norm: seq<Transition>)
    requires AllRejected(preamble) && AllSingleLines(preamble) && preamble != []
    requires forall u :: u in norm ==> Printable(u)
    ensures Headings(SplitLines(Printed(head, preamble, norm))) == Headings(SplitLines(head))
  {
    MatchersIgnoreTrailingSpace();
    PrintedAccepted(MatchHeading, head, preamble, norm);
    RenderedRowsRead(norm);
    assert Headings(SplitLines(head)) + [] == Headings(SplitLines(head));
  }

  lemma RowsOfPrint(head: string, preamble: seq<string>, norm: seq<Transition>)
    requires AllRejected(preamble) && AllSingleLines(preamble) && preamble != []
    requires forall u :: u in norm ==> Printable(u)
    ensures Rows(SplitLines(Printed(head, preamble, norm))) == Rows(SplitLines(head)) + NotHeaders(norm)
  {
    MatchersIgnoreTrailingSpace();
    PrintedAccepted(MatchRow, head, preamble, norm);
    RenderedRowsRead(norm);
  }

  /** Reading the print of any nested machine: the states of the part before the marker, and the rows of that
      part followed by the hoisted transitions, less those a lift gave a source called like the header. */
  lemma ReadingTheNormalized(orcaMd: string)
    requires Nested(StatesOf(orcaMd))
    ensures StatesOf(Normalized(orcaMd)) == StatesOf(Head(orcaMd))
    ensures TransitionsOf(Normalized(orcaMd))
         == TransitionsOf(Head(orcaMd)) + NotHeaders(Hoisted(StatesOf(orcaMd), TransitionsOf(orcaMd)))
  {
    var norm := Hoisted(StatesOf(orcaMd), TransitionsOf(orcaMd));
    forall u | u in norm ensures Printable(u) {
      HoistedPrintable(orcaMd, u);
    }
    PreambleRejected();
    PreambleSingleLines();
    HeadingsOfPrint(Head(orcaMd), Preamble(), norm);
    RowsOfPrint(Head(orcaMd), Preamble(), norm);
  }

  /** The marker starts a line and no state is declared from there on. */
  predicate StatesBeforeMarker(orcaMd: string) {
    match IndexOf(orcaMd, MARKER)
    case Some(i) => EndsInBreak(orcaMd[..i]) && Headings(SplitLines(orcaMd[i..])) == []
    case None => false
  }

  /** A composite called like the table header owns a transition that leaves it. */
  ghost predicate HeaderNamedExit(states: seq<State>, ts: seq<Transition>) {
    exists t :: t in ts && Crossing(states, t) && ReadsAsHeader(ParentOf(states, t.source).value)
  }

  lemma {:induction false} NotHeadersAll(ts: seq<Transition>)
    ensures |NotHeaders(ts)| <= |ts|
    ensures (forall t :: t in ts ==> !ReadsAsHeader(t.source)) ==> NotHeaders(ts) == ts
    ensures forall t :: t in NotHeaders(ts) ==> !ReadsAsHeader(t.source)
  {
    if ts != [] {
      NotHeadersAll(ts[1..]);
      assert ts == [ts[0]] + ts[1..];
    }
  }

  /** The round trip.  When the states are declared before a marker that starts a line, the print reads back as
      exactly the same states, and as exactly the hoisted transitions if and only if no accepted row precedes
      the marker and no composite called like the table header has an exit lifted onto it. */
  lemma ReadsBackIff(orcaMd: string)
    requires Nested(StatesOf(orcaMd)) && StatesBeforeMarker(orcaMd)
    ensures var states, ts := StatesOf(orcaMd), TransitionsOf(orcaMd);
            && StatesOf(Normalized(orcaMd)) == states
            && (TransitionsOf(Normalized(orcaMd)) == Hoisted(states, ts)
                <==> TransitionsOf(Head(orcaMd)) == [] && !HeaderNamedExit(states, ts))
  {
    ReadingTheNormalized(orcaMd);
    var i := IndexOf(orcaMd, MARKER).value;
    SplitLinesConcat(orcaMd[..i], orcaMd[i..]) by {
      assert orcaMd[i..][0] == orcaMd[i..][..|MARKER|][0] == '#';
    }
    assert orcaMd == orcaMd[..i] + orcaMd[i..];
    CollectConcat(MatchHeading, SplitLines(orcaMd[..i]), SplitLines(orcaMd[i..]));
    assert Headings(SplitLines(orcaMd)) == Headings(SplitLines(Head(orcaMd)));
    HeaderNamesInHoisted(orcaMd);
    SourcesBeforeMarker(orcaMd);
    var states, ts := StatesOf(orcaMd), TransitionsOf(orcaMd);
    var norm, before := Hoisted(states, ts), TransitionsOf(Head(orcaMd));
    NotHeadersAll(norm);
    if before + NotHeaders(norm) == norm {
      forall t | t in norm ensures !ReadsAsHeader(t.source) {
        assert t in before || t in NotHeaders(norm);
      }
      assert |before| == 0;
    }
  }

  lemma SourcesBeforeMarker(orcaMd: string)
    ensures forall t :: t in TransitionsOf(orcaMd) ==> !ReadsAsHeader(t.source)
    ensures forall t :: t in TransitionsOf(Head(orcaMd)) ==> !ReadsAsHeader(t.source)
  {
    LinesHaveNoBreaks("", false, orcaMd);
    ParsedRowsPrintable(SplitLines(orcaMd));
    LinesHaveNoBreaks("", false, Head(orcaMd));
    ParsedRowsPrintable(SplitLines(Head(orcaMd)));
  }

  lemma HeaderNamesInHoisted(orcaMd: string)
    ensures var states, ts := StatesOf(orcaMd), TransitionsOf(orcaMd);
            HeaderNamedExit(states, ts) <==> exists u :: u in Hoisted(states, ts) && ReadsAsHeader(u.source)
  {
    var states, ts := StatesOf(orcaMd), TransitionsOf(orcaMd);
    InHoisted(states, ts);
    SourcesBeforeMarker(orcaMd);
    if HeaderNamedExit(states, ts) {
      var t :| t in ts && Crossing(states, t) && ReadsAsHeader(ParentOf(states, t.source).value);
      assert Lift(states, t) in Hoisted(states, ts);
    }
    if u :| u in Hoisted(states, ts) && ReadsAsHeader(u.source) {
      var t :| t in ts && u == Lift(states, t);
      assert Crossing(states, t);
    }
  }
}
