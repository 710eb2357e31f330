/** Determinism with guards: two rows for one source and event conflict when their guards overlap and their targets
    differ.  The copy erases all guards and lifts exits, so it can report conflicts that are none and hide real ones. */
module Determinism {
  import opened Options
  import opened Text
  import opened MachineText
  import opened Hierarchy
  import opened Hoisting
  import opened RowForm
  import opened RoundTrip
  import opened VerificationCopy

  /** A row of the transition table with its guard cell. */
  datatype Guarded = Guarded(guard: string, row: Transition)

  /** Which guards can hold together.  Nothing is known of it but that an absent guard always holds, so that two
      absent guards overlap. */
  type Overlap = (string, string) -> bool

  function Erased(gs: seq<Guarded>): (ts: seq<Transition>)
    ensures |ts| == |gs| && forall i :: 0 <= i < |gs| ==> ts[i] == gs[i].row
  {
    if gs == [] then [] else Erased(gs[..|gs| - 1]) + [gs[|gs| - 1].row]
  }

  function Unguarded(ts: seq<Transition>): (gs: seq<Guarded>)
    ensures |gs| == |ts| && forall i :: 0 <= i < |ts| ==> gs[i] == Guarded("", ts[i])
  {
    if ts == [] then [] else Unguarded(ts[..|ts| - 1]) + [Guarded("", ts[|ts| - 1])]
  }

  /** The rows of the copy: hoisted, each once, and without guards. */
  function Copied(states: seq<State>, gs: seq<Guarded>): seq<Guarded> {
    Unguarded(Hoisted(states, Erased(gs)))
  }

  predicate Compete(g: Guarded, h: Guarded, overlap: Overlap) {
    g.row.source == h.row.source && g.row.event == h.row.event && overlap(g.guard, h.guard)
  }

  /** Rows that compete agree on the target. */
  ghost predicate GuardDeterministic(gs: seq<Guarded>, overlap: Overlap) {
    forall g, h :: g in gs && h in gs && Compete(g, h, overlap) ==> g.row.target == h.row.target
  }

  /** Two rows the copy gives one source, and the same event, with different targets. */
  predicate Clash(states: seq<State>, g: Guarded, h: Guarded) {
    && Lift(states, g.row).source == Lift(states, h.row).source
    && g.row.event == h.row.event
    && g.row.target != h.row.target
  }

  ghost predicate SomeClash(states: seq<State>, gs: seq<Guarded>) {
    exists g, h :: g in gs && h in gs && Clash(states, g, h)
  }

  lemma InErased(gs: seq<Guarded>)
    ensures forall g :: g in gs ==> g.row in Erased(gs)
    ensures forall t :: t in Erased(gs) ==> exists g :: g in gs && g.row == t
  {
    forall g | g in gs ensures g.row in Erased(gs) {
      var i :| 0 <= i < |gs| && gs[i] == g;
      assert Erased(gs)[i] == g.row;
    }
    forall t | t in Erased(gs) ensures exists g :: g in gs && g.row == t {
      var i :| 0 <= i < |gs| && Erased(gs)[i] == t;
      assert gs[i] in gs && gs[i].row == t;
    }
  }

  lemma InUnguarded(ts: seq<Transition>)
    ensures forall t :: t in ts ==> Guarded("", t) in Unguarded(ts)
    ensures forall c :: c in Unguarded(ts) ==> c.guard == "" && c.row in ts
  {
    forall t | t in ts ensures Guarded("", t) in Unguarded(ts) {
      var i :| 0 <= i < |ts| && ts[i] == t;
      assert Unguarded(ts)[i] == Guarded("", t);
    }
  }

  lemma CopiedRow(states: seq<State>, gs: seq<Guarded>, g: Guarded)
    requires g in gs
    ensures Guarded("", Lift(states, g.row)) in Copied(states, gs)
  {
    InErased(gs);
    InHoisted(states, Erased(gs));
    InUnguarded(Hoisted(states, Erased(gs)));
  }

  lemma CopiedFrom(states: seq<State>, gs: seq<Guarded>, c: Guarded) returns (g: Guarded)
    requires c in Copied(states, gs)
    ensures g in gs && c == Guarded("", Lift(states, g.row))
  {
    InUnguarded(Hoisted(states, Erased(gs)));
    var t := LiftedFrom(states, Erased(gs), c.row);
    InErased(gs);
    g :| g in gs && g.row == t;
  }

  /** The copy is deterministic if and only if no two rows clash, whatever their guards were. */
  lemma CopyDeterministicIff(states: seq<State>, gs: seq<Guarded>, overlap: Overlap)
    requires overlap("", "")
    ensures GuardDeterministic(Copied(states, gs), overlap) <==> !SomeClash(states, gs)
  {
    var copied := Copied(states, gs);
    if GuardDeterministic(copied, overlap) {
      forall g, h | g in gs && h in gs ensures !Clash(states, g, h) {
        CopiedRow(states, gs, g);
        CopiedRow(states, gs, h);
        var a, b := Guarded("", Lift(states, g.row)), Guarded("", Lift(states, h.row));
        assert Compete(a, b, overlap) ==> a.row.target == b.row.target;
      }
    }
    if !SomeClash(states, gs) {
      forall a, b | a in copied && b in copied && Compete(a, b, overlap) ensures a.row.target == b.row.target {
        var g := CopiedFrom(states, gs, a);
        var h := CopiedFrom(states, gs, b);
        assert !Clash(states, g, h);
      }
    }
  }

  /** The documentation says determinism is unchanged.  It is, if and only if the machine is deterministic and no two
      of its rows clash once lifted and stripped of their guards, or it is not and some two rows still clash. */
  lemma DeterminismUnchangedIff(states: seq<State>, gs: seq<Guarded>, overlap: Overlap)
    requires overlap("", "")
    ensures (GuardDeterministic(gs, overlap) <==> GuardDeterministic(Copied(states, gs), overlap))
       <==> if GuardDeterministic(gs, overlap) then !SomeClash(states, gs) else SomeClash(states, gs)
  {
    CopyDeterministicIff(states, gs, overlap);
  }

  /** A conflict that lifting cannot pull apart: both rows are lifted, or neither is. */
  ghost predicate ConflictStays(states: seq<State>, gs: seq<Guarded>, overlap: Overlap) {
    exists g, h :: g in gs && h in gs && Compete(g, h, overlap) && g.row.target != h.row.target
                   && (Crossing(states, g.row) <==> Crossing(states, h.row))
  }

  /** A real conflict is never hidden when both its rows are exits or neither is. */
  lemma ConflictStaysVisible(states: seq<State>, gs: seq<Guarded>, overlap: Overlap)
    requires overlap("", "") && ConflictStays(states, gs, overlap)
    ensures !GuardDeterministic(gs, overlap) && !GuardDeterministic(Copied(states, gs), overlap)
  {
    CopyDeterministicIff(states, gs, overlap);
    var g, h :| g in gs && h in gs && Compete(g, h, overlap) && g.row.target != h.row.target
                && (Crossing(states, g.row) <==> Crossing(states, h.row));
    assert Clash(states, g, h);
  }

  lemma PairClash(states: seq<State>, g: Guarded, h: Guarded)
    ensures SomeClash(states, [g, h]) <==> Clash(states, g, h)
  {
    assert g in [g, h] && h in [g, h];
    assert forall a :: a in [g, h] ==> a == g || a == h;
  }

  lemma PairCompetes(g: Guarded, h: Guarded, overlap: Overlap)
    requires Compete(g, h, overlap) && g.row.target != h.row.target
    ensures !GuardDeterministic([g, h], overlap)
  {
    assert g in [g, h] && h in [g, h];
  }

  lemma ExitMovesAway(g: Guarded, h: Guarded)
    requires g.row == Transition("x", "e", "o") && h.row == Transition("x", "e", "y")
    ensures !Clash(SIBLINGS, g, h)
  {
    SiblingParents();
  }

  /** A hidden conflict: one of two rows for the same source and event is an exit and is lifted away. */
  lemma ConflictCanBeHidden(overlap: Overlap)
    requires overlap("", "")
    ensures var gs := [Guarded("", Transition("x", "e", "o")), Guarded("", Transition("x", "e", "y"))];
            !GuardDeterministic(gs, overlap) && GuardDeterministic(Copied(SIBLINGS, gs), overlap)
  {
    var g, h := Guarded("", Transition("x", "e", "o")), Guarded("", Transition("x", "e", "y"));
    PairCompetes(g, h, overlap);
    ExitMovesAway(g, h);
    PairClash(SIBLINGS, g, h);
    CopyDeterministicIff(SIBLINGS, [g, h], overlap);
  }

  /** A conflict that is none: two rows with guards that exclude each other. */
  lemma GuardedChoiceLost(g1: string, g2: string, overlap: Overlap)
    requires overlap("", "") && !overlap(g1, g2) && !overlap(g2, g1)
    ensures var gs := [Guarded(g1, Transition("c", "e", "o")), Guarded(g2, Transition("c", "e", "p"))];
            GuardDeterministic(gs, overlap) && !GuardDeterministic(Copied(SIBLINGS, gs), overlap)
  {
    SiblingParents();
    var g, h := Guarded(g1, Transition("c", "e", "o")), Guarded(g2, Transition("c", "e", "p"));
    assert forall a :: a in [g, h] ==> a == g || a == h;
    PairClash(SIBLINGS, g, h);
    CopyDeterministicIff(SIBLINGS, [g, h], overlap);
  }

  // ----- from text to text -----

  /** The third cell of an accepted row. */
  function GuardCell(raw: string): string
    requires MatchRow(raw).Some?
  {
    var row := RStrip(raw);
    StripAll(SplitOn(row[1..|row| - 1], '|'))[2]
  }

  function MatchGuarded(raw: string): Option<Guarded> {
    match MatchRow(raw)
    case Some(t) => Some(Guarded(GuardCell(raw), t))
    case None => None
  }

  /** A row is read with its guard if and only if it has the form of a row and the guard is its third cell,
      stripped. */
  lemma GuardedRowIff(raw: string, g: Guarded)
    ensures MatchGuarded(raw) == Some(g)
       <==> exists cells, gap :: HasRowForm(raw, g.row, cells, gap) && g.guard == Strip(cells[2])
  {
    if MatchRow(raw) == Some(g.row) {
      var cells, gap := AcceptedHasForm(raw, g.row);
      StripAllAt(cells, 2);
    }
    forall cells, gap | HasRowForm(raw, g.row, cells, gap) && g.guard == Strip(cells[2])
      ensures MatchGuarded(raw) == Some(g) {
      FormIsAccepted(raw, g.row, cells, gap);
      StripAllAt(cells, 2);
    }
  }

  function GuardedOf(orcaMd: string): seq<Guarded> {
    Collect(MatchGuarded, SplitLines(orcaMd))
  }

  lemma {:induction false} ErasedIsRows(lines: seq<string>)
    ensures Erased(Collect(MatchGuarded, lines)) == Rows(lines)
  {
    if lines != [] {
      var n := |lines| - 1;
      ErasedIsRows(lines[..n]);
      var before := Collect(MatchGuarded, lines[..n]);
      if MatchGuarded(lines[n]).Some? {
        assert (before + [MatchGuarded(lines[n]).value])[..|before|] == before;
      }
    }
  }

  lemma GuardedIgnoresTrailingSpace()
    ensures IgnoresTrailingSpace(MatchGuarded)
  {
    forall s: string, c: char | IsSpace(c) ensures MatchGuarded(s + [c]) == MatchGuarded(s) {
      RowSnoc(s, c);
      assert (s + [c])[..|s|] == s;
      assert RStrip(s + [c]) == RStrip(s);
    }
  }

  lemma PrintedGuard(t: Transition)
    requires Printable(t) && !ReadsAsHeader(t.source)
    ensures MatchGuarded(RenderRow(t)) == Some(Guarded("", t))
  {
    RowReadsBack(t);
    RowCells(t);
    RowEnds(t);
  }

  lemma {:induction false} PrintedGuards(ts: seq<Transition>)
    requires forall t :: t in ts ==> Printable(t) && !ReadsAsHeader(t.source)
    ensures Collect(MatchGuarded, RenderRows(ts)) == Unguarded(ts)
  {
    if ts != [] {
      PrintedGuard(ts[0]);
      PrintedGuards(ts[1..]);
      CollectCons(MatchGuarded, RenderRow(ts[0]), RenderRows(ts[1..]));
    }
  }

  /** The rows the verifier reads in the copy: the hoisted ones, without guards. */
  lemma CopyGuards(orcaMd: string)
    requires WellLaidOut(orcaMd)
    ensures GuardedOf(Normalized(orcaMd)) == Copied(StatesOf(orcaMd), GuardedOf(orcaMd))
  {
    var norm := Hoisted(StatesOf(orcaMd), TransitionsOf(orcaMd));
    ErasedIsRows(SplitLines(orcaMd));
    forall u | u in norm ensures Printable(u) && !ReadsAsHeader(u.source) {
      HoistedPrintable(orcaMd, u);
      HeaderNamesInHoisted(orcaMd);
    }
    PreambleRejected();
    PreambleSingleLines();
    GuardedIgnoresTrailingSpace();
    PrintedAccepted(MatchGuarded, Head(orcaMd), Preamble(), norm);
    PrintedGuards(norm);
    ErasedIsRows(SplitLines(Head(orcaMd)));
  }

  /** What the verifier is told about determinism, from text to text. */
  lemma CopyDeterminismIff(orcaMd: string, overlap: Overlap)
    requires WellLaidOut(orcaMd) && overlap("", "")
    ensures var states, gs := StatesOf(orcaMd), GuardedOf(orcaMd);
            (GuardDeterministic(gs, overlap) <==> GuardDeterministic(GuardedOf(Normalized(orcaMd)), overlap))
            <==> if GuardDeterministic(gs, overlap) then !SomeClash(states, gs) else SomeClash(states, gs)
  {
    CopyGuards(orcaMd);
    DeterminismUnchangedIff(StatesOf(orcaMd), GuardedOf(orcaMd), overlap);
  }
}
