/** What a machine can reach.  Under the UML reading a state is active together with all its ancestors, a
    transition of an active state may fire, and targeting a composite enters its initial child.  ORCA reads a
    machine the same way but ignores the transitions that cross a composite's border. */
module Reachability {
  import opened Options
  import opened MachineText
  import opened Hierarchy
  import opened Hoisting

  ghost predicate InitialChild(states: seq<State>, p: string, k: string) {
    exists i :: 0 <= i < |states| && states[i].id == k && states[i].parent == Some(p) && states[i].initial
  }

  ghost predicate HasInitialChild(states: seq<State>, p: string) {
    exists k :: InitialChild(states, p, k)
  }

  /** Targeting `t` leads, through `n` initial children, to the innermost state `leaf`. */
  ghost predicate EntersIn(states: seq<State>, t: string, leaf: string, n: nat)
    decreases n
  {
    if n == 0 then leaf == t && !HasInitialChild(states, t)
    else exists k :: InitialChild(states, t, k) && EntersIn(states, k, leaf, n - 1)
  }

  ghost predicate Enters(states: seq<State>, t: string, leaf: string) {
    exists n: nat :: EntersIn(states, t, leaf, n)
  }

  /** Whether `s` is active when the innermost active state is `leaf`. */
  ghost predicate Active(states: seq<State>, s: string, leaf: string) {
    InheritsFrom(states, leaf, s)
  }

  ghost predicate Starts(states: seq<State>, leaf: string) {
    exists i :: 0 <= i < |states| && states[i].initial && states[i].parent == None && Enters(states, states[i].id, leaf)
  }

  ghost predicate Fires(states: seq<State>, t: Transition, leaf: string, leaf': string) {
    Active(states, t.source, leaf) && Enters(states, t.target, leaf')
  }

  ghost predicate Steps(states: seq<State>, ts: seq<Transition>, leaf: string, event: string, leaf': string) {
    exists t :: t in ts && t.event == event && Fires(states, t, leaf, leaf')
  }

  /** A run: the innermost active states it passes through and the events between them. */
  ghost predicate Run(states: seq<State>, ts: seq<Transition>, path: seq<string>, word: seq<string>) {
    && |path| == |word| + 1
    && Starts(states, path[0])
    && forall i :: 0 <= i < |word| ==> Steps(states, ts, path[i], word[i], path[i + 1])
  }

  ghost predicate ReachesLeaf(states: seq<State>, ts: seq<Transition>, leaf: string) {
    exists path, word :: Run(states, ts, path, word) && path[|path| - 1] == leaf
  }

  /** Some run makes `s` active. */
  ghost predicate Reachable(states: seq<State>, ts: seq<Transition>, s: string) {
    exists leaf :: ReachesLeaf(states, ts, leaf) && Active(states, s, leaf)
  }

  /** The transitions ORCA does not ignore. */
  function OrcaEdges(states: seq<State>, ts: seq<Transition>): (r: seq<Transition>)
    ensures forall t :: t in r <==> t in ts && !Crossing(states, t)
  {
    if ts == [] then []
    else
      var init := OrcaEdges(states, ts[..|ts| - 1]);
      assert ts == ts[..|ts| - 1] + [ts[|ts| - 1]];
      if Crossing(states, ts[|ts| - 1]) then init else init + [ts[|ts| - 1]]
  }

  // ----- what hoisting keeps -----

  /** A lifted transition fires wherever the original does. */
  lemma LiftedFires(states: seq<State>, t: Transition, leaf: string, leaf': string)
    requires Fires(states, t, leaf, leaf')
    ensures Fires(states, Lift(states, t), leaf, leaf')
  {
    if Crossing(states, t) {
      InheritsFromParent(states, leaf, t.source);
    }
  }

  lemma StepsAfterPass(states: seq<State>, ts: seq<Transition>, leaf: string, event: string, leaf': string)
    requires Steps(states, ts, leaf, event, leaf')
    ensures Steps(states, Hoisted(states, ts), leaf, event, leaf')
  {
    var t :| t in ts && t.event == event && Fires(states, t, leaf, leaf');
    LiftedFires(states, t, leaf, leaf');
    InHoisted(states, ts);
    assert Lift(states, t) in Hoisted(states, ts);
  }

  lemma {:induction false} StepsAfterPasses(states: seq<State>, ts: seq<Transition>, n: nat,
                                            leaf: string, event: string, leaf': string)
    requires Steps(states, ts, leaf, event, leaf')
    ensures Steps(states, HoistedTimes(states, ts, n), leaf, event, leaf')
    decreases n
  {
    if n > 0 {
      StepsAfterPasses(states, ts, n - 1, leaf, event, leaf');
      StepsAfterPass(states, HoistedTimes(states, ts, n - 1), leaf, event, leaf');
    }
  }

  /** At any nesting depth, as many passes as the nesting is deep keep every run, event for event and state for
      state, when crossing edges are ignored. */
  lemma RepeatedPassesKeepRuns(states: seq<State>, ts: seq<Transition>, depth: nat, path: seq<string>,
                               word: seq<string>)
    requires MaxDepth(states, depth) && Run(states, ts, path, word)
    ensures Run(states, OrcaEdges(states, HoistedTimes(states, ts, depth)), path, word)
  {
    var hoisted := HoistedTimes(states, ts, depth);
    PassesSuffice(states, ts, depth);
    forall i | 0 <= i < |word| ensures Steps(states, OrcaEdges(states, hoisted), path[i], word[i], path[i + 1]) {
      StepsAfterPasses(states, ts, depth, path[i], word[i], path[i + 1]);
      var t :| t in hoisted && t.event == word[i] && Fires(states, t, path[i], path[i + 1]);
      assert t in OrcaEdges(states, hoisted);
    }
  }

  /** What ORCA reads in the copy: the hoisted transitions but for those that still cross. */
  function CopyEdges(states: seq<State>, ts: seq<Transition>): seq<Transition> {
    OrcaEdges(states, Hoisted(states, ts))
  }

  lemma CopyEdge(states: seq<State>, ts: seq<Transition>, t: Transition)
    requires t in ts
    ensures Lift(states, t) in CopyEdges(states, ts) <==> !Crossing(states, t) || StaysNear(states, t)
  {
    InHoisted(states, ts);
    CrossesAgainIff(states, t);
  }

  lemma CopyEdgeFrom(states: seq<State>, ts: seq<Transition>, u: Transition) returns (t: Transition)
    requires u in CopyEdges(states, ts)
    ensures t in ts && u == Lift(states, t) && (!Crossing(states, t) || StaysNear(states, t))
  {
    t := LiftedFrom(states, ts, u);
    CrossesAgainIff(states, t);
  }

  /** The transformation keeps behaviour: when every exit leaves one level only, every run of the original machine is,
      event for event and state for state, a run of the normalized machine as ORCA reads it. */
  lemma HoistingKeepsRuns(states: seq<State>, ts: seq<Transition>, path: seq<string>, word: seq<string>)
    requires ExitsStayNear(states, ts) && Run(states, ts, path, word)
    ensures Run(states, CopyEdges(states, ts), path, word)
  {
    forall i | 0 <= i < |word| ensures Steps(states, CopyEdges(states, ts), path[i], word[i], path[i + 1]) {
      assert Steps(states, ts, path[i], word[i], path[i + 1]);
      var t :| t in ts && t.event == word[i] && Fires(states, t, path[i], path[i + 1]);
      LiftedFires(states, t, path[i], path[i + 1]);
      CopyEdge(states, ts, t);
    }
  }

  // ----- what can be reached -----

  ghost predicate SameReach(states: seq<State>, ts: seq<Transition>, us: seq<Transition>) {
    forall s :: Reachable(states, ts, s) <==> Reachable(states, us, s)
  }

  lemma ActiveReachable(states: seq<State>, ts: seq<Transition>, s: string, a: string)
    requires Reachable(states, ts, s) && InheritsFrom(states, s, a)
    ensures Reachable(states, ts, a)
  {
    var leaf :| ReachesLeaf(states, ts, leaf) && Active(states, s, leaf);
    InheritsFromTransitive(states, leaf, s, a);
  }

  lemma StartReachable(states: seq<State>, ts: seq<Transition>, leaf: string)
    requires Starts(states, leaf)
    ensures ReachesLeaf(states, ts, leaf) && Reachable(states, ts, leaf)
  {
    assert Run(states, ts, [leaf], []) && [leaf][|[leaf]| - 1] == leaf;
    InheritsFromSelf(states, leaf);
  }

  lemma FireReachable(states: seq<State>, ts: seq<Transition>, t: Transition, leaf': string)
    requires t in ts && Reachable(states, ts, t.source) && Enters(states, t.target, leaf')
    ensures ReachesLeaf(states, ts, leaf') && Reachable(states, ts, leaf')
  {
    var leaf :| ReachesLeaf(states, ts, leaf) && Active(states, t.source, leaf);
    var path, word :| Run(states, ts, path, word) && path[|path| - 1] == leaf;
    ExtendRun(states, ts, path, word, t, leaf');
    InheritsFromSelf(states, leaf');
  }

  lemma ExtendRun(states: seq<State>, ts: seq<Transition>, path: seq<string>, word: seq<string>, t: Transition,
                  leaf: string)
    requires Run(states, ts, path, word) && t in ts && Fires(states, t, path[|path| - 1], leaf)
    ensures Run(states, ts, path + [leaf], word + [t.event])
    ensures ReachesLeaf(states, ts, leaf)
  {
    var path', word' := path + [leaf], word + [t.event];
    forall i | 0 <= i < |word'| ensures Steps(states, ts, path'[i], word'[i], path'[i + 1]) {
      if i < |word| {
        assert Steps(states, ts, path[i], word[i], path[i + 1]);
      }
    }
    assert path'[|path'| - 1] == leaf;
  }

  /** Every exit that leaves more than one level, which the copy as read by ORCA loses, leads somewhere the copy
      reaches without it. */
  ghost predicate FarExitsCovered(states: seq<State>, ts: seq<Transition>) {
    forall t, leaf :: t in ts && Crossing(states, t) && !StaysNear(states, t)
                      && Reachable(states, ts, t.source) && Enters(states, t.target, leaf)
                      ==> Reachable(states, CopyEdges(states, ts), leaf)
  }

  /** Every exit of one level owned by a child of a reachable composite leads somewhere reachable. */
  ghost predicate NearExitsLandReachable(states: seq<State>, ts: seq<Transition>) {
    forall t, leaf :: t in ts && Crossing(states, t) && StaysNear(states, t) && Enters(states, t.target, leaf)
                      && Reachable(states, ts, ParentOf(states, t.source).value)
                      ==> Reachable(states, ts, leaf)
  }

  lemma StepStaysInCopy(states: seq<State>, ts: seq<Transition>, leaf: string, event: string, leaf': string)
    requires FarExitsCovered(states, ts) && Steps(states, ts, leaf, event, leaf')
    requires Reachable(states, ts, leaf) && Reachable(states, CopyEdges(states, ts), leaf)
    ensures Reachable(states, CopyEdges(states, ts), leaf')
  {
    var copied := CopyEdges(states, ts);
    var t :| t in ts && t.event == event && Fires(states, t, leaf, leaf');
    CopyEdge(states, ts, t);
    if Crossing(states, t) && !StaysNear(states, t) {
      ActiveReachable(states, ts, leaf, t.source);
    } else {
      LiftedFires(states, t, leaf, leaf');
      ActiveReachable(states, copied, leaf, Lift(states, t).source);
      FireReachable(states, copied, Lift(states, t), leaf');
    }
  }

  /** Along a run of the original, the copy reaches everything. */
  lemma {:induction false} RunStaysInCopy(states: seq<State>, ts: seq<Transition>, path: seq<string>, word: seq<string>)
    requires FarExitsCovered(states, ts) && Run(states, ts, path, word)
    ensures Reachable(states, CopyEdges(states, ts), path[|path| - 1])
    decreases |word|
  {
    var copied := CopyEdges(states, ts);
    if word == [] {
      StartReachable(states, copied, path[0]);
    } else {
      var n := |word| - 1;
      PrefixRun(states, ts, path, word);
      RunStaysInCopy(states, ts, path[..n + 1], word[..n]);
      StepStaysInCopy(states, ts, path[n], word[n], path[n + 1]);
    }
  }

  lemma PrefixRun(states: seq<State>, ts: seq<Transition>, path: seq<string>, word: seq<string>)
    requires word != [] && Run(states, ts, path, word)
    ensures Run(states, ts, path[..|word|], word[..|word| - 1])
    ensures Reachable(states, ts, path[|word| - 1])
  {
    var n := |word| - 1;
    var path', word' := path[..n + 1], word[..n];
    forall i | 0 <= i < n ensures Steps(states, ts, path'[i], word'[i], path'[i + 1]) {
      assert Steps(states, ts, path[i], word[i], path[i + 1]);
    }
    assert Run(states, ts, path', word') && path'[|path'| - 1] == path[n];
    assert ReachesLeaf(states, ts, path[n]);
    InheritsFromSelf(states, path[n]);
    assert Active(states, path[n], path[n]);
  }

  /** Along a run of the copy, everything is reachable in the original. */
  lemma {:induction false} CopyRunStaysReachable(states: seq<State>, ts: seq<Transition>, path: seq<string>,
                                                 word: seq<string>)
    requires NearExitsLandReachable(states, ts) && Run(states, CopyEdges(states, ts), path, word)
    ensures Reachable(states, ts, path[|path| - 1])
    decreases |word|
  {
    if word == [] {
      StartReachable(states, ts, path[0]);
    } else {
      var n, copied := |word| - 1, CopyEdges(states, ts);
      PrefixRun(states, copied, path, word);
      CopyRunStaysReachable(states, ts, path[..n + 1], word[..n]);
      assert Steps(states, copied, path[n], word[n], path[n + 1]);
      var u :| u in copied && u.event == word[n] && Fires(states, u, path[n], path[n + 1]);
      ActiveReachable(states, ts, path[n], u.source);
      var t := CopyEdgeFrom(states, ts, u);
      if !Crossing(states, t) {
        FireReachable(states, ts, t, path[n + 1]);
      }
    }
  }

  /** The documentation promises that no state of a well-formed nested process is falsely unreachable in the copy.  For
      every machine, at any depth, this holds if and only if the exits that leave more than one level are covered. */
  lemma NormalizerKeepsReachableIff(states: seq<State>, ts: seq<Transition>)
    ensures (forall s :: Reachable(states, ts, s) ==> Reachable(states, CopyEdges(states, ts), s))
       <==> FarExitsCovered(states, ts)
  {
    var copied := CopyEdges(states, ts);
    if FarExitsCovered(states, ts) {
      forall s | Reachable(states, ts, s) ensures Reachable(states, copied, s) {
        var leaf :| ReachesLeaf(states, ts, leaf) && Active(states, s, leaf);
        var path, word :| Run(states, ts, path, word) && path[|path| - 1] == leaf;
        RunStaysInCopy(states, ts, path, word);
        ActiveReachable(states, copied, leaf, s);
      }
    }
    if forall s :: Reachable(states, ts, s) ==> Reachable(states, copied, s) {
      forall t, leaf | t in ts && Reachable(states, ts, t.source) && Enters(states, t.target, leaf)
        ensures Reachable(states, copied, leaf)
      {
        FireReachable(states, ts, t, leaf);
      }
    }
  }

  lemma CopyReachesNoMore(states: seq<State>, ts: seq<Transition>, s: string)
    requires NearExitsLandReachable(states, ts) && Reachable(states, CopyEdges(states, ts), s)
    ensures Reachable(states, ts, s)
  {
    var copied := CopyEdges(states, ts);
    var leaf :| ReachesLeaf(states, copied, leaf) && Active(states, s, leaf);
    var path, word :| Run(states, copied, path, word) && path[|path| - 1] == leaf;
    CopyRunStaysReachable(states, ts, path, word);
    ActiveReachable(states, ts, leaf, s);
  }

  /** The documentation calls the rewrite reachability-equivalent.  For every machine, at any depth, the original under
      the UML reading and the normalized machine under ORCA's reading reach the same states if and only if exits that
      leave more than one level are covered and the others, owned by children of reachable composites, lead somewhere
      reachable. */
  lemma ReachabilityEquivalentIff(states: seq<State>, ts: seq<Transition>)
    ensures SameReach(states, ts, CopyEdges(states, ts))
       <==> FarExitsCovered(states, ts) && NearExitsLandReachable(states, ts)
  {
    var copied := CopyEdges(states, ts);
    NormalizerKeepsReachableIff(states, ts);
    if FarExitsCovered(states, ts) && NearExitsLandReachable(states, ts) {
      forall s | Reachable(states, copied, s) ensures Reachable(states, ts, s) {
        CopyReachesNoMore(states, ts, s);
      }
    }
    if SameReach(states, ts, copied) {
      forall t, leaf | t in ts && Crossing(states, t) && StaysNear(states, t) && Enters(states, t.target, leaf)
                       && Reachable(states, ts, ParentOf(states, t.source).value)
        ensures Reachable(states, ts, leaf)
      {
        CopyEdge(states, ts, t);
        FireReachable(states, copied, Lift(states, t), leaf);
      }
    }
  }

  // ----- when every exit leaves one level only -----

  /** Every exit owned by a child of a reachable composite leads somewhere reachable. */
  ghost predicate ExitsLandReachable(states: seq<State>, ts: seq<Transition>) {
    forall t, leaf :: t in ts && Crossing(states, t) && Enters(states, t.target, leaf)
                      && Reachable(states, ts, ParentOf(states, t.source).value)
                      ==> Reachable(states, ts, leaf)
  }

  /** Then no state is falsely unreachable in the copy. */
  lemma NormalizerKeepsReachable(states: seq<State>, ts: seq<Transition>, s: string)
    requires ExitsStayNear(states, ts) && Reachable(states, ts, s)
    ensures Reachable(states, CopyEdges(states, ts), s)
  {
    NormalizerKeepsReachableIff(states, ts);
  }

  /** And the two reach the same states if and only if every exit of a reachable composite leads somewhere
      reachable. */
  lemma NearExitsEquivalentIff(states: seq<State>, ts: seq<Transition>)
    requires ExitsStayNear(states, ts)
    ensures SameReach(states, ts, CopyEdges(states, ts)) <==> ExitsLandReachable(states, ts)
  {
    ReachabilityEquivalentIff(states, ts);
    assert FarExitsCovered(states, ts);
  }

  /** When each child owning an exit is reachable as soon as its composite is, the copy adds nothing, at any depth; so
      the two reach the same states if and only if the copy loses nothing. */
  lemma OwnersReachableSuffice(states: seq<State>, ts: seq<Transition>)
    requires forall t :: t in ts && Crossing(states, t) && Reachable(states, ts, ParentOf(states, t.source).value)
                         ==> Reachable(states, ts, t.source)
    ensures SameReach(states, ts, CopyEdges(states, ts)) <==> FarExitsCovered(states, ts)
    ensures ExitsStayNear(states, ts) ==> SameReach(states, ts, CopyEdges(states, ts))
  {
    forall t, leaf | t in ts && Crossing(states, t) && Enters(states, t.target, leaf)
                     && Reachable(states, ts, ParentOf(states, t.source).value)
      ensures Reachable(states, ts, leaf)
    {
      FireReachable(states, ts, t, leaf);
    }
    ReachabilityEquivalentIff(states, ts);
    if ExitsStayNear(states, ts) {
      assert FarExitsCovered(states, ts);
    }
  }

  // ----- a machine for which it adds something -----

  /** A composite `c` entered at `x`; its other child `b`, which nothing leads to, owns the only way to `out`. */
  const SAMPLE := [State("c", true, false, None), State("x", true, false, Some("c")),
                   State("b", false, false, Some("c")), State("out", false, true, None)]
  const EXIT := Transition("b", "leave", "out")

  lemma SampleParents()
    ensures ParentOf(SAMPLE, "c") == None && ParentOf(SAMPLE, "out") == None
    ensures ParentOf(SAMPLE, "x") == Some("c") && ParentOf(SAMPLE, "b") == Some("c")
    ensures MaxDepth(SAMPLE, 1)
  {
    ParentOfUnique(SAMPLE, 0);
    ParentOfUnique(SAMPLE, 1);
    ParentOfUnique(SAMPLE, 2);
    ParentOfUnique(SAMPLE, 3);
    forall sid ensures EndsWithin(SAMPLE, sid, 1) {
      ParentOfDeclared(SAMPLE, sid);
      AncestorStep(SAMPLE, sid, 0);
      AncestorStep(SAMPLE, sid, 1);
    }
  }

  lemma AboveX(s: string)
    ensures Active(SAMPLE, s, "x") <==> s == "x" || s == "c"
  {
    SampleParents();
    AncestorStep(SAMPLE, "x", 0);
    AncestorStep(SAMPLE, "x", 1);
    assert AncestorAt(SAMPLE, "x", 0) == Some("x") && AncestorAt(SAMPLE, "x", 1) == Some("c");
    forall n: nat | n >= 2 ensures AncestorAt(SAMPLE, "x", n).None? {
      AncestorsEnd(SAMPLE, "x", 2, n);
    }
  }

  lemma SampleStarts(leaf: string)
    ensures Starts(SAMPLE, leaf) <==> leaf == "x"
  {
    forall k ensures InitialChild(SAMPLE, "c", k) <==> k == "x" {
      assert SAMPLE[1].id == "x";
    }
    assert !HasInitialChild(SAMPLE, "x");
    assert InitialChild(SAMPLE, "c", "x") && EntersIn(SAMPLE, "x", "x", 0);
    assert EntersIn(SAMPLE, "c", "x", 1);
    assert SAMPLE[0].id == "c";
    if Starts(SAMPLE, leaf) {
      var n: nat :| EntersIn(SAMPLE, "c", leaf, n);
      assert n > 0 && EntersIn(SAMPLE, "x", leaf, n - 1);
      assert n - 1 == 0;
    }
  }

  lemma NoStepFromX(event: string, leaf: string)
    ensures !Steps(SAMPLE, [EXIT], "x", event, leaf)
  {
    AboveX("b");
  }

  /** The only run of the sample stays in `x`. */
  lemma SampleStays(path: seq<string>, word: seq<string>)
    requires Run(SAMPLE, [EXIT], path, word)
    ensures path == ["x"]
  {
    SampleStarts(path[0]);
    if word != [] {
      NoStepFromX(word[0], path[1]);
      assert false;
    }
  }

  lemma OutUnreachable()
    ensures !Reachable(SAMPLE, [EXIT], "out")
  {
    if Reachable(SAMPLE, [EXIT], "out") {
      var leaf :| ReachesLeaf(SAMPLE, [EXIT], leaf) && Active(SAMPLE, "out", leaf);
      var path, word :| Run(SAMPLE, [EXIT], path, word) && path[|path| - 1] == leaf;
      SampleStays(path, word);
      AboveX("out");
      assert false;
    }
  }

  lemma ExitLifted()
    ensures Transition("c", "leave", "out") in CopyEdges(SAMPLE, [EXIT])
  {
    SampleParents();
    InHoisted(SAMPLE, [EXIT]);
    assert EXIT in [EXIT] && Lift(SAMPLE, EXIT) == Transition("c", "leave", "out");
  }

  lemma OutReachableFrom(ts: seq<Transition>)
    requires Transition("c", "leave", "out") in ts
    ensures Reachable(SAMPLE, ts, "out")
  {
    SampleStarts("x");
    StartReachable(SAMPLE, ts, "x");
    AboveX("c");
    ActiveReachable(SAMPLE, ts, "x", "c");
    assert !HasInitialChild(SAMPLE, "out");
    assert EntersIn(SAMPLE, "out", "out", 0);
    FireReachable(SAMPLE, ts, Transition("c", "leave", "out"), "out");
  }

  /** The rewrite is not reachability-equivalent for every machine: here `out` becomes reachable. */
  lemma EquivalenceFails()
    ensures MaxDepth(SAMPLE, 1) && !Reachable(SAMPLE, [EXIT], "out")
    ensures Reachable(SAMPLE, CopyEdges(SAMPLE, [EXIT]), "out")
  {
    SampleParents();
    OutUnreachable();
    ExitLifted();
    OutReachableFrom(CopyEdges(SAMPLE, [EXIT]));
  }

  // ----- a machine for which it loses something -----

  lemma NestedStarts(leaf: string)
    ensures Starts(NESTED, leaf) <==> leaf == "c"
  {
    forall k ensures InitialChild(NESTED, "a", k) <==> k == "b" {
      assert NESTED[1].id == "b";
    }
    forall k ensures InitialChild(NESTED, "b", k) <==> k == "c" {
      assert NESTED[2].id == "c";
    }
    assert !HasInitialChild(NESTED, "c");
    assert InitialChild(NESTED, "b", "c") && EntersIn(NESTED, "c", "c", 0) && EntersIn(NESTED, "b", "c", 1);
    assert InitialChild(NESTED, "a", "b") && EntersIn(NESTED, "a", "c", 2);
    assert NESTED[0].id == "a";
    if Starts(NESTED, leaf) {
      var n: nat :| EntersIn(NESTED, "a", leaf, n);
      assert n > 0 && EntersIn(NESTED, "b", leaf, n - 1);
      assert n - 1 > 0 && EntersIn(NESTED, "c", leaf, n - 2);
      assert n - 2 == 0;
    }
  }

  lemma OutReachableFromC()
    ensures Reachable(NESTED, [FAR_EXIT], "out")
  {
    NestedStarts("c");
    StartReachable(NESTED, [FAR_EXIT], "c");
    assert !HasInitialChild(NESTED, "out") && EntersIn(NESTED, "out", "out", 0);
    assert FAR_EXIT in [FAR_EXIT];
    FireReachable(NESTED, [FAR_EXIT], FAR_EXIT, "out");
  }

  lemma NoCopyEdges(u: Transition)
    ensures u !in CopyEdges(NESTED, [FAR_EXIT])
  {
    NestedParents();
    if u in CopyEdges(NESTED, [FAR_EXIT]) {
      var t := CopyEdgeFrom(NESTED, [FAR_EXIT], u);
      assert false;
    }
  }

  lemma AboveC(s: string)
    requires Active(NESTED, s, "c")
    ensures s != "out"
  {
    NestedParents();
    var n: nat :| AncestorAt(NESTED, "c", n) == Some(s);
    AncestorStep(NESTED, "c", 0);
    AncestorStep(NESTED, "c", 1);
    AncestorStep(NESTED, "c", 2);
    if n >= 3 {
      AncestorsEnd(NESTED, "c", 3, n);
      assert false;
    }
  }

  /** Against the documentation, a state can be falsely unreachable: with three levels the exit of the innermost
      child, the only way out, is lifted onto the inner composite, still crosses, and is ignored. */
  lemma FalselyUnreachable()
    ensures Reachable(NESTED, [FAR_EXIT], "out") && !Reachable(NESTED, CopyEdges(NESTED, [FAR_EXIT]), "out")
  {
    OutReachableFromC();
    var copied := CopyEdges(NESTED, [FAR_EXIT]);
    if Reachable(NESTED, copied, "out") {
      var leaf :| ReachesLeaf(NESTED, copied, leaf) && Active(NESTED, "out", leaf);
      var path, word :| Run(NESTED, copied, path, word) && path[|path| - 1] == leaf;
      StaysInC(path, word);
      AboveC("out");
    }
  }

  lemma StaysInC(path: seq<string>, word: seq<string>)
    requires Run(NESTED, CopyEdges(NESTED, [FAR_EXIT]), path, word)
    ensures path == ["c"]
  {
    NestedStarts(path[0]);
    if word != [] {
      assert Steps(NESTED, CopyEdges(NESTED, [FAR_EXIT]), path[0], word[0], path[1]);
      var u :| u in CopyEdges(NESTED, [FAR_EXIT]) && u.event == word[0] && Fires(NESTED, u, path[0], path[1]);
      NoCopyEdges(u);
      assert false;
    }
  }
}
