/** Reading a machine from its Markdown text: heading lines declare states, whose nesting follows the
    heading level, and table rows declare transitions. */
module MachineText {
  import opened Options
  import opened Text

  datatype State = State(id: string, initial: bool, final: bool, parent: Option<string>)
  datatype Transition = Transition(source: string, event: string, target: string)

  /** A heading line `### state id [annotation]`. */
  datatype Heading = Heading(level: nat, id: string, annotation: string)

  // ----- one line -----

  predicate IsIdChar(c: char) {
    'A' <= c <= 'Z' || 'a' <= c <= 'z' || '0' <= c <= '9' || c == '_'
  }

  predicate IsIdentifier(s: string) {
    s != "" && forall i :: 0 <= i < |s| ==> IsIdChar(s[i])
  }

  /** The heading pattern.  Each of its parts starts with a character the part before cannot take, so the
      greedy reading is the only one. */
  function MatchHeading(raw: string): (r: Option<Heading>)
    ensures r.Some? ==> raw != "" && raw[0] == '#'
  {
    var level := Span(raw, c => c == '#');
    if level == 0 then None
    else match SkipSpaces(raw[level..])
      case Some(rest) => if StartsWith(rest, "state") then MatchName(level, rest[5..]) else None
      case None => None
  }

  /** Whitespace of at least one character. */
  function SkipSpaces(s: string): Option<string> {
    if s != "" && IsSpace(s[0]) then Some(LStrip(s)) else None
  }

  function MatchName(level: nat, afterWord: string): (r: Option<Heading>) {
    match SkipSpaces(afterWord)
    case Some(name) =>
      var n := Span(name, IsIdChar);
      if n == 0 then None else MatchAnnotation(level, name[..n], LStrip(name[n..]))
    case None => None
  }

  function MatchAnnotation(level: nat, id: string, rest: string): (r: Option<Heading>) {
    if rest == "" then Some(Heading(level, id, ""))
    else if rest[0] != '[' then None
    else
      var n := Span(rest[1..], c => c != ']');
      if n == |rest| - 1 || !AllSpace(rest[n + 2..]) then None
      else Some(Heading(level, id, rest[1..n + 1]))
  }

  function ToState(h: Heading, parent: Option<string>): State {
    State(h.id, Contains(h.annotation, "initial"), Contains(h.annotation, "final"), parent)
  }

  /** A cell made of nothing but the characters of a table rule. */
  predicate RuleOnly(s: string) {
    forall i :: 0 <= i < |s| ==> s[i] in "-: "
  }

  function StripAll(cells: seq<string>): (r: seq<string>)
    ensures |r| == |cells|
  {
    if cells == [] then [] else [Strip(cells[0])] + StripAll(cells[1..])
  }

  predicate TableRow(row: string) {
    |row| >= 3 && row[|row| - 1] == '|'
  }

  function MatchRow(raw: string): (r: Option<Transition>)
    ensures r.Some? ==> raw != "" && raw[0] == '|'
  {
    var row := RStrip(raw);
    if raw == "" || raw[0] != '|' || !TableRow(row) || Contains(raw, "-->") then None
    else RowOfCells(StripAll(SplitOn(row[1..|row| - 1], '|')))
  }

  function RowOfCells(cols: seq<string>): (r: Option<Transition>) {
    if |cols| >= 4 && cols[0] != "" && ToLower(cols[0]) != "source" && !RuleOnly(cols[0])
    then Some(Transition(cols[0], cols[1], cols[3]))
    else None
  }

  // ----- all lines -----

  function Headings(lines: seq<string>): seq<Heading> {
    Collect(MatchHeading, lines)
  }

  function Rows(lines: seq<string>): seq<Transition> {
    Collect(MatchRow, lines)
  }

  /** The nearest heading above position `i` among the first `j` whose level is strictly smaller. */
  function EnclosingBelow(hs: seq<Heading>, level: nat, j: nat): (r: Option<nat>)
    requires j <= |hs|
    ensures r.Some? ==> r.value < j && hs[r.value].level < level
    ensures r.Some? ==> forall k :: r.value < k < j ==> hs[k].level >= level
    ensures r.None? ==> forall k :: 0 <= k < j ==> hs[k].level >= level
  {
    if j == 0 then None
    else if hs[j - 1].level < level then Some(j - 1)
    else EnclosingBelow(hs, level, j - 1)
  }

  /** The parent of a heading of the given level that comes after `hs`. */
  function ParentAfter(hs: seq<Heading>, level: nat): Option<string> {
    match EnclosingBelow(hs, level, |hs|)
    case Some(j) => Some(hs[j].id)
    case None => None
  }

  /** The states the headings declare, each below the nearest enclosing heading. */
  function Declared(hs: seq<Heading>): (states: seq<State>)
    ensures |states| == |hs|
  {
    if hs == [] then []
    else
      var init, h := hs[..|hs| - 1], hs[|hs| - 1];
      Declared(init) + [ToState(h, ParentAfter(init, h.level))]
  }

  /** A heading no later heading has closed. */
  ghost predicate IsOpen(hs: seq<Heading>, j: nat) {
    j < |hs| && forall k :: j < k < |hs| ==> hs[k].level > hs[j].level
  }

  lemma IsOpenSnoc(hs: seq<Heading>, h: Heading, j: nat)
    ensures IsOpen(hs + [h], j) <==> j == |hs| || (IsOpen(hs, j) && h.level > hs[j].level)
  {
    var hs' := hs + [h];
    if IsOpen(hs', j) && j < |hs| {
      assert hs'[|hs|].level > hs'[j].level;
      assert forall k :: 0 <= k < |hs| ==> hs'[k] == hs[k];
    }
  }

  /** What is on the parser's stack after the headings `hs`: the positions of the open headings in order. */
  ghost predicate OpenHeadings(hs: seq<Heading>, open: seq<nat>) {
    && (forall k, l :: 0 <= k < l < |open| ==> open[k] < open[l])
    && (forall j: nat :: IsOpen(hs, j) <==> j in open)
  }

  /** Stack levels are strictly increasing. */
  lemma OpenLevelsIncrease(hs: seq<Heading>, open: seq<nat>, k: nat, l: nat)
    requires OpenHeadings(hs, open) && k < l < |open|
    ensures open[k] < |hs| && open[l] < |hs| && hs[open[k]].level < hs[open[l]].level
  {
    assert open[k] in open && open[l] in open;
    assert IsOpen(hs, open[k]) && IsOpen(hs, open[l]);
  }

  /** The stack once the headings at or below the level of `h` have been popped. */
  ghost predicate Popped(hs: seq<Heading>, open: seq<nat>, k: nat, level: nat) {
    && k <= |open|
    && (forall l :: 0 <= l < |open| ==> open[l] < |hs|)
    && (k > 0 ==> hs[open[k - 1]].level < level)
    && (forall l :: k <= l < |open| ==> hs[open[l]].level >= level)
  }

  lemma TopEncloses(hs: seq<Heading>, open: seq<nat>, k: nat, level: nat)
    requires OpenHeadings(hs, open) && Popped(hs, open, k, level)
    ensures EnclosingBelow(hs, level, |hs|) == if k == 0 then None else Some(open[k - 1])
  {
    var r := EnclosingBelow(hs, level, |hs|);
    if r.Some? {
      assert IsOpen(hs, r.value);
      var l :| 0 <= l < |open| && open[l] == r.value;
    }
  }

  lemma OpenAfterHeading(hs: seq<Heading>, open: seq<nat>, k: nat, h: Heading)
    requires OpenHeadings(hs, open) && Popped(hs, open, k, h.level)
    ensures OpenHeadings(hs + [h], open[..k] + [|hs|])
  {
    var open' := open[..k] + [|hs|];
    forall j: nat ensures IsOpen(hs + [h], j) <==> j in open' {
      IsOpenSnoc(hs, h, j);
      if j in open {
        var l :| 0 <= l < |open| && open[l] == j;
        if l < k {
          if l < k - 1 {
            OpenLevelsIncrease(hs, open, l, k - 1);
          }
          assert open'[l] == j;
        } else {
          assert j !in open[..k];
        }
      } else {
        assert j !in open[..k];
        assert open'[k] == |hs|;
      }
    }
  }

  /** A stack entry for each open heading: its level and its state. */
  ghost predicate StackMatches(hs: seq<Heading>, open: seq<nat>, stack: seq<(nat, string)>) {
    && |stack| == |open|
    && forall k :: 0 <= k < |open| ==> open[k] < |hs| && stack[k] == (hs[open[k]].level, hs[open[k]].id)
  }

  lemma HeadingStep(hs: seq<Heading>, open: seq<nat>, stack: seq<(nat, string)>, kept: seq<(nat, string)>, h: Heading)
    requires OpenHeadings(hs, open) && StackMatches(hs, open, stack)
    requires kept <= stack && (kept != [] ==> kept[|kept| - 1].0 < h.level)
    requires forall l :: |kept| <= l < |stack| ==> stack[l].0 >= h.level
    ensures ParentAfter(hs, h.level) == if kept != [] then Some(kept[|kept| - 1].1) else None
    ensures OpenHeadings(hs + [h], open[..|kept|] + [|hs|])
    ensures StackMatches(hs + [h], open[..|kept|] + [|hs|], kept + [(h.level, h.id)])
  {
    var k := |kept|;
    assert k > 0 ==> kept[k - 1] == stack[k - 1];
    assert Popped(hs, open, k, h.level);
    TopEncloses(hs, open, k, h.level);
    OpenAfterHeading(hs, open, k, h);
  }

  /** The parser's state after `idx` lines. */
  ghost predicate Reading(lines: seq<string>, idx: nat, states: seq<State>, transitions: seq<Transition>,
                          hs: seq<Heading>, open: seq<nat>, stack: seq<(nat, string)>) {
    && idx <= |lines|
    && hs == Headings(lines[..idx]) && states == Declared(hs)
    && transitions == Rows(lines[..idx])
    && OpenHeadings(hs, open) && StackMatches(hs, open, stack)
  }

  lemma ReadLine(lines: seq<string>, idx: nat)
    requires idx < |lines|
    ensures Headings(lines[..idx + 1])
         == Headings(lines[..idx]) + match MatchHeading(lines[idx]) case Some(h) => [h] case None => []
    ensures Rows(lines[..idx + 1])
         == Rows(lines[..idx]) + match MatchRow(lines[idx]) case Some(t) => [t] case None => []
  {
    assert lines[..idx + 1][..idx] == lines[..idx];
  }

  lemma HeadingIsNoRow(raw: string)
    ensures MatchHeading(raw).None? || MatchRow(raw).None?
  {
  }

  lemma ReadHeading(lines: seq<string>, idx: nat, states: seq<State>, transitions: seq<Transition>,
                    hs: seq<Heading>, open: seq<nat>, stack: seq<(nat, string)>,
                    kept: seq<(nat, string)>, h: Heading)
    requires Reading(lines, idx, states, transitions, hs, open, stack)
    requires idx < |lines| && MatchHeading(lines[idx]) == Some(h)
    requires kept <= stack && (kept != [] ==> kept[|kept| - 1].0 < h.level)
    requires forall l :: |kept| <= l < |stack| ==> stack[l].0 >= h.level
    ensures var parent := if kept != [] then Some(kept[|kept| - 1].1) else None;
            Reading(lines, idx + 1, states + [ToState(h, parent)], transitions,
                    hs + [h], open[..|kept|] + [|hs|], kept + [(h.level, h.id)])
  {
    ReadLine(lines, idx);
    HeadingIsNoRow(lines[idx]);
    HeadingStep(hs, open, stack, kept, h);
  }

  /** The inner loop: pops the entries at or below the new heading's level. */
  method PopClosed(stack: seq<(nat, string)>, level: nat) returns (kept: seq<(nat, string)>)
    ensures kept <= stack && (kept != [] ==> kept[|kept| - 1].0 < level)
    ensures forall l :: |kept| <= l < |stack| ==> stack[l].0 >= level
  {
    kept := stack;
    while kept != [] && kept[|kept| - 1].0 >= level
      invariant kept <= stack
      invariant forall l :: |kept| <= l < |stack| ==> stack[l].0 >= level
      decreases |kept|
    {
      kept := kept[..|kept| - 1];
    }
  }

  /** The parser's loop: the states are those the headings declare, with the nearest earlier heading of
      smaller level as parent, and the transitions are the accepted rows in order. */
  method ParseMachine(orcaMd: string) returns (states: seq<State>, transitions: seq<Transition>)
    ensures states == Declared(Headings(SplitLines(orcaMd)))
    ensures transitions == Rows(SplitLines(orcaMd))
  {
    var lines := SplitLines(orcaMd);
    states, transitions := [], [];
    var stack: seq<(nat, string)> := [];
    ghost var hs: seq<Heading> := [];
    ghost var open: seq<nat> := [];
    var idx := 0;
    while idx < |lines|
      invariant Reading(lines, idx, states, transitions, hs, open, stack)
    {
      var sm, tm := MatchHeading(lines[idx]), MatchRow(lines[idx]);
      if sm.Some? {
        var h := sm.value;
        var kept := PopClosed(stack, h.level);
        ReadHeading(lines, idx, states, transitions, hs, open, stack, kept, h);
        var parent := if kept != [] then Some(kept[|kept| - 1].1) else None;
        states := states + [ToState(h, parent)];
        stack := kept + [(h.level, h.id)];
        open, hs := open[..|kept|] + [|hs|], hs + [h];
      } else {
        ReadLine(lines, idx);
        if tm.Some? {
          transitions := transitions + [tm.value];
        }
      }
      idx := idx + 1;
    }
    assert lines[..idx] == lines;
  }
}
