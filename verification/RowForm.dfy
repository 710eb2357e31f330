/** What the row pattern accepts, told by its cells. */
module RowForm {
  import opened Options
  import opened Text
  import opened MachineText

  /** The word `source` in any mixture of small and capital letters. */
  predicate HeaderWord(s: string) {
    && |s| == 6
    && s[0] in "sS" && s[1] in "oO" && s[2] in "uU" && s[3] in "rR" && s[4] in "cC" && s[5] in "eE"
  }

  /** A row is a bar, at least four cells with bars between them, a bar and whitespace.  Its first, second and fourth
      cell, stripped, are the transition; the third, the guard, and all that follow the fourth do not matter. */
  ghost predicate HasRowForm(raw: string, t: Transition, cells: seq<string>, gap: string) {
    && |cells| >= 4 && (forall cell :: cell in cells ==> '|' !in cell) && AllSpace(gap)
    && raw == "|" + Join("|", cells) + "|" + gap && !Contains(raw, "-->")
    && t == Transition(Strip(cells[0]), Strip(cells[1]), Strip(cells[3]))
    && t.source != "" && !HeaderWord(t.source) && exists i :: 0 <= i < |t.source| && t.source[i] !in "-: "
  }

  lemma LowerLetter(s: string, i: nat, small: char)
    requires i < |s| && 'a' <= small <= 'z'
    ensures ToLower(s)[i] == small <==> s[i] == small || s[i] == (small as int - 32) as char
  {
  }

  lemma HeaderWordIff(s: string)
    ensures ToLower(s) == "source" <==> HeaderWord(s)
  {
    if |s| == 6 {
      var word := "source";
      LowerLetter(s, 0, 's');
      LowerLetter(s, 1, 'o');
      LowerLetter(s, 2, 'u');
      LowerLetter(s, 3, 'r');
      LowerLetter(s, 4, 'c');
      LowerLetter(s, 5, 'e');
      assert ToLower(s) == word <==> forall i :: 0 <= i < 6 ==> ToLower(s)[i] == word[i];
    }
  }

  lemma {:induction false} StripAllAt(cells: seq<string>, i: nat)
    requires i < |cells|
    ensures StripAll(cells)[i] == Strip(cells[i])
  {
    if i > 0 {
      StripAllAt(cells[1..], i - 1);
    }
  }

  lemma CellsOfRow(t: Transition, cells: seq<string>)
    ensures RowOfCells(StripAll(cells)) == Some(t)
       <==> && |cells| >= 4 && t == Transition(Strip(cells[0]), Strip(cells[1]), Strip(cells[3]))
            && t.source != "" && !HeaderWord(t.source) && exists i :: 0 <= i < |t.source| && t.source[i] !in "-: "
  {
    if |cells| >= 4 {
      StripAllAt(cells, 0);
      StripAllAt(cells, 1);
      StripAllAt(cells, 3);
      HeaderWordIff(Strip(cells[0]));
    }
  }

  /** The row and its gap are told apart by the last bar. */
  lemma RowAndGap(inner: string, gap: string)
    requires AllSpace(gap)
    ensures RStrip("|" + inner + "|" + gap) == "|" + inner + "|"
  {
    RStripGap("|" + inner + "|", gap);
  }

  lemma {:induction false} RStripGap(row: string, gap: string)
    requires AllSpace(gap) && row != "" && !IsSpace(row[|row| - 1])
    ensures RStrip(row + gap) == row
  {
    if gap == "" {
      assert row + gap == row;
    } else {
      assert (row + gap)[..|row + gap| - 1] == row + gap[..|gap| - 1];
      RStripGap(row, gap[..|gap| - 1]);
    }
  }

  lemma JoinedCells(cells: seq<string>)
    requires |cells| >= 2
    ensures |Join("|", cells)| >= 1
  {
  }

  lemma FormIsAccepted(raw: string, t: Transition, cells: seq<string>, gap: string)
    requires HasRowForm(raw, t, cells, gap)
    ensures MatchRow(raw) == Some(t)
    ensures var row := RStrip(raw); SplitOn(row[1..|row| - 1], '|') == cells
  {
    var inner := Join("|", cells);
    JoinedCells(cells);
    RowAndGap(inner, gap);
    var row := "|" + inner + "|";
    assert row[1..|row| - 1] == inner;
    SplitJoin('|', cells);
    CellsOfRow(t, cells);
  }

  lemma BarsAround(row: string)
    requires |row| >= 2 && row[0] == '|' && row[|row| - 1] == '|'
    ensures row == "|" + row[1..|row| - 1] + "|"
  {
  }

  /** An accepted line, taken apart. */
  lemma RowApart(raw: string, t: Transition) returns (inner: string, gap: string)
    requires MatchRow(raw) == Some(t)
    ensures raw == "|" + inner + "|" + gap && AllSpace(gap) && !Contains(raw, "-->")
    ensures RowOfCells(StripAll(SplitOn(inner, '|'))) == Some(t)
  {
    var row := RStrip(raw);
    RStripDropsSpace(raw);
    gap, inner := raw[|row|..], row[1..|row| - 1];
    assert raw == row + gap;
    BarsAround(row);
  }

  lemma AcceptedHasForm(raw: string, t: Transition) returns (cells: seq<string>, gap: string)
    requires MatchRow(raw) == Some(t)
    ensures HasRowForm(raw, t, cells, gap)
    ensures var row := RStrip(raw); SplitOn(row[1..|row| - 1], '|') == cells
  {
    var inner;
    inner, gap := RowApart(raw, t);
    cells := SplitOn(inner, '|');
    JoinSplit(inner, '|');
    PiecesLackSeparator(inner, '|');
    CellsOfRow(t, cells);
    FormIsAccepted(raw, t, cells, gap);
  }

  /** The pattern, both ways. */
  lemma RowIff(raw: string, t: Transition)
    ensures MatchRow(raw) == Some(t) <==> exists cells, gap :: HasRowForm(raw, t, cells, gap)
  {
    if MatchRow(raw) == Some(t) {
      var cells, gap := AcceptedHasForm(raw, t);
    }
    forall cells, gap | HasRowForm(raw, t, cells, gap) ensures MatchRow(raw) == Some(t) {
      FormIsAccepted(raw, t, cells, gap);
    }
  }
}
