/** The state hierarchy: looking up parents by state id, chains of ancestors and nesting depth. */
module Hierarchy {
  import opened Options
  import opened MachineText

  /** The parent of a state id.  As in the source's dictionary, the last declaration of an id wins, and an id
      nobody declares has no parent. */
  function ParentOf(states: seq<State>, sid: string): Option<string> {
    if states == [] then None
    else if states[|states| - 1].id == sid then states[|states| - 1].parent
    else ParentOf(states[..|states| - 1], sid)
  }

  lemma {:induction false} ParentOfDeclared(states: seq<State>, sid: string)
    ensures ParentOf(states, sid).Some? ==>
              exists i :: 0 <= i < |states| && states[i].id == sid && states[i].parent == ParentOf(states, sid)
  {
    if states != [] {
      var n := |states| - 1;
      if states[n].id == sid {
      } else {
        ParentOfDeclared(states[..n], sid);
      }
    }
  }

  /** The last declaration of an id counts, and an id nobody declares has no parent. */
  lemma {:induction false} ParentOfIsLast(states: seq<State>, sid: string)
    ensures forall i ::
            0 <= i < |states| && states[i].id == sid && (forall j :: i < j < |states| ==> states[j].id != sid)
            ==> ParentOf(states, sid) == states[i].parent
    ensures (forall i :: 0 <= i < |states| ==> states[i].id != sid) ==> ParentOf(states, sid) == None
  {
    if states != [] {
      var n := |states| - 1;
      ParentOfIsLast(states[..n], sid);
      if states[n].id != sid {
        forall i | 0 <= i < |states| && states[i].id == sid && (forall j :: i < j < |states| ==> states[j].id != sid)
          ensures ParentOf(states, sid) == states[i].parent {
          assert states[..n][i] == states[i];
        }
      }
    }
  }

  predicate UniqueIds(states: seq<State>) {
    forall i, j :: 0 <= i < j < |states| ==> states[i].id != states[j].id
  }

  lemma {:induction false} ParentOfUnique(states: seq<State>, i: nat)
    requires UniqueIds(states) && i < |states|
    ensures ParentOf(states, states[i].id) == states[i].parent
  {
    var n := |states| - 1;
    if i < n {
      ParentOfUnique(states[..n], i);
    }
  }

  /** The `n`-th proper ancestor of `sid`; the 0-th is `sid` itself. */
  function AncestorAt(states: seq<State>, sid: string, n: nat): Option<string>
    decreases n
  {
    if n == 0 then Some(sid)
    else match ParentOf(states, sid)
      case Some(p) => AncestorAt(states, p, n - 1)
      case None => None
  }

  lemma {:induction false} AncestorStep(states: seq<State>, sid: string, n: nat)
    ensures AncestorAt(states, sid, n + 1)
         == match AncestorAt(states, sid, n) case Some(a) => ParentOf(states, a) case None => None
    decreases n
  {
    if n > 0 && ParentOf(states, sid).Some? {
      AncestorStep(states, ParentOf(states, sid).value, n - 1);
    }
  }

  lemma {:induction false} AncestorCompose(states: seq<State>, sid: string, m: nat, n: nat)
    requires AncestorAt(states, sid, m).Some?
    ensures AncestorAt(states, sid, m + n) == AncestorAt(states, AncestorAt(states, sid, m).value, n)
    decreases m
  {
    if m > 0 {
      AncestorCompose(states, ParentOf(states, sid).value, m - 1, n);
    }
  }

  lemma {:induction false} AncestorsEnd(states: seq<State>, sid: string, m: nat, n: nat)
    requires m <= n && AncestorAt(states, sid, m).None?
    ensures AncestorAt(states, sid, n).None?
    decreases m
  {
    if m > 0 && ParentOf(states, sid).Some? {
      AncestorsEnd(states, ParentOf(states, sid).value, m - 1, n - 1);
    }
  }

  /** The state has no more than `depth` ancestors. */
  ghost predicate EndsWithin(states: seq<State>, sid: string, depth: nat) {
    AncestorAt(states, sid, depth + 1).None?
  }

  /** No state is nested more than `depth` levels below a top-level state. */
  ghost predicate MaxDepth(states: seq<State>, depth: nat) {
    forall sid :: EndsWithin(states, sid, depth)
  }

  // ----- machines read from text -----

  lemma ParentAfterIs(before: seq<Heading>, level: nat)
    ensures forall j ::
            0 <= j < |before| && before[j].level < level && (forall k :: j < k < |before| ==> before[k].level >= level)
            ==> ParentAfter(before, level) == Some(before[j].id)
    ensures ParentAfter(before, level) == None <==> forall j :: 0 <= j < |before| ==> before[j].level >= level
  {
  }

  /** Each parent is the id of the nearest earlier heading of strictly smaller level. */
  lemma ParentIsNearestSmaller(hs: seq<Heading>, i: nat)
    requires i < |hs|
    ensures Declared(hs)[i] == ToState(hs[i], Declared(hs)[i].parent) && Declared(hs)[i].id == hs[i].id
    ensures forall j ::
            0 <= j < i && hs[j].level < hs[i].level && (forall k :: j < k < i ==> hs[k].level >= hs[i].level)
            ==> Declared(hs)[i].parent == Some(hs[j].id)
    ensures Declared(hs)[i].parent == None <==> forall j :: 0 <= j < i ==> hs[j].level >= hs[i].level
  {
    DeclaredAt(hs, i);
    var before := hs[..i];
    ParentAfterIs(before, hs[i].level);
    assert forall j :: 0 <= j < i ==> before[j] == hs[j];
  }

  lemma {:induction false} DeclaredAt(hs: seq<Heading>, i: nat)
    requires i < |hs|
    ensures Declared(hs)[i] == ToState(hs[i], ParentAfter(hs[..i], hs[i].level))
  {
    var n := |hs| - 1;
    if i < n {
      DeclaredAt(hs[..n], i);
      assert hs[..n][..i] == hs[..i];
    } else {
      assert hs[..i] == hs[..n];
    }
  }

  /** Every parent is declared before its child. */
  ghost predicate ParentsFirst(states: seq<State>) {
    forall i :: 0 <= i < |states| && states[i].parent.Some? ==> DeclaredBefore(states, i, states[i].parent.value)
  }

  ghost predicate DeclaredBefore(states: seq<State>, i: nat, sid: string) {
    exists j :: 0 <= j < i && j < |states| && states[j].id == sid
  }

  lemma ParsedParentsFirst(hs: seq<Heading>)
    ensures ParentsFirst(Declared(hs))
  {
    var states := Declared(hs);
    forall i | 0 <= i < |states| && states[i].parent.Some?
      ensures DeclaredBefore(states, i, states[i].parent.value)
    {
      DeclaredAt(hs, i);
      var j := EnclosingBelow(hs[..i], hs[i].level, i).value;
      DeclaredAt(hs, j);
      assert states[j].id == hs[j].id;
    }
  }

  /** With unique ids the parent relation of a parsed machine is a forest: from the `i`-th state no chain of
      parents is longer than `i`, so it has no cycle and ends at a top-level state. */
  lemma {:induction false} ParsedIsForest(states: seq<State>, i: nat)
    requires UniqueIds(states) && ParentsFirst(states) && i < |states|
    ensures AncestorAt(states, states[i].id, i + 1).None?
    ensures forall n: nat :: 1 <= n ==> AncestorAt(states, states[i].id, n) != Some(states[i].id)
  {
    ChainEnds(states, i);
    var sid := states[i].id;
    if n: nat :| 1 <= n && AncestorAt(states, sid, n) == Some(sid) {
      CycleNeverEnds(states, sid, n, i + 1);
      AncestorsEnd(states, sid, i + 1, n * (i + 1));
    }
  }

  lemma {:induction false} ChainEnds(states: seq<State>, i: nat)
    requires UniqueIds(states) && ParentsFirst(states) && i < |states|
    ensures AncestorAt(states, states[i].id, i + 1).None?
  {
    ParentOfUnique(states, i);
    if states[i].parent.Some? {
      assert DeclaredBefore(states, i, states[i].parent.value);
      var j :| 0 <= j < i && states[j].id == states[i].parent.value;
      ChainEnds(states, j);
      AncestorsEnd(states, states[j].id, j + 1, i);
    }
  }

  lemma {:induction false} CycleNeverEnds(states: seq<State>, sid: string, n: nat, k: nat)
    requires AncestorAt(states, sid, n) == Some(sid)
    ensures AncestorAt(states, sid, n * k) == Some(sid)
    decreases k
  {
    if k > 0 {
      AncestorCompose(states, sid, n, n * (k - 1));
      assert n + n * (k - 1) == n * k;
      CycleNeverEnds(states, sid, n, k - 1);
    }
  }

  /** A parsed machine with unique ids is nested less deeply than it has states. */
  lemma ParsedDepth(states: seq<State>)
    requires UniqueIds(states) && ParentsFirst(states)
    ensures MaxDepth(states, |states|)
  {
    forall sid ensures EndsWithin(states, sid, |states|) {
      ParentOfDeclared(states, sid);
      if ParentOf(states, sid).Some? {
        var i :| 0 <= i < |states| && states[i].id == sid;
        ChainEnds(states, i);
        AncestorsEnd(states, sid, i + 1, |states| + 1);
      }
    }
  }
}
