/** Moving transitions that leave a composite from the child to its parent, and what that does to the events
    each state handles and to determinism. */
module Hoisting {
  import opened Options
  import opened MachineText
  import opened Hierarchy

  /** A child leaving its composite. */
  predicate Crossing(states: seq<State>, t: Transition) {
    var ps := ParentOf(states, t.source);
    ps.Some? && ParentOf(states, t.target) != ps && t.target != ps.value
  }

  function Lift(states: seq<State>, t: Transition): Transition {
    if Crossing(states, t) then t.(source := ParentOf(states, t.source).value) else t
  }

  /** The state is `a` or lies below it at any depth; then it inherits the transitions of `a`. */
  ghost predicate InheritsFrom(states: seq<State>, sid: string, a: string) {
    exists n: nat :: AncestorAt(states, sid, n) == Some(a)
  }

  /** The state lies below `p`, but not directly. */
  ghost predicate DeepInside(states: seq<State>, sid: string, p: string) {
    InheritsFrom(states, sid, p) && forall n: nat :: AncestorAt(states, sid, n) == Some(p) ==> n >= 2
  }

  /** The documentation says that each transition from a child to the outside of its composite is moved to the
      composite.  That is so, but one to a state deeper inside the composite is moved as well, and these are all. */
  lemma CrossingIff(states: seq<State>, t: Transition)
    ensures match ParentOf(states, t.source)
            case Some(p) =>
              Crossing(states, t) <==> !InheritsFrom(states, t.target, p) || DeepInside(states, t.target, p)
            case None => !Crossing(states, t)
    ensures Lift(states, t)
         == if Crossing(states, t) then Transition(ParentOf(states, t.source).value, t.event, t.target) else t
  {
    if ParentOf(states, t.source).Some? {
      var p := ParentOf(states, t.source).value;
      assert AncestorAt(states, t.target, 0) == Some(t.target);
      assert AncestorAt(states, t.target, 1) == ParentOf(states, t.target);
    }
  }

  /** Under the two-level rule exactly the transitions to the outside are moved. */
  lemma TwoLevelsOnlyExits(states: seq<State>, t: Transition)
    requires MaxDepth(states, 1) && ParentOf(states, t.source).Some?
    ensures Crossing(states, t) <==> !InheritsFrom(states, t.target, ParentOf(states, t.source).value)
  {
    CrossingIff(states, t);
    assert EndsWithin(states, t.target, 1);
    forall n: nat | n >= 2 ensures AncestorAt(states, t.target, n).None? {
      AncestorsEnd(states, t.target, 2, n);
    }
  }

  function LiftAll(states: seq<State>, ts: seq<Transition>): (r: seq<Transition>)
    ensures |r| == |ts| && forall i :: 0 <= i < |ts| ==> r[i] == Lift(states, ts[i])
  {
    if ts == [] then [] else LiftAll(states, ts[..|ts| - 1]) + [Lift(states, ts[|ts| - 1])]
  }

  /** The transitions of the normalized machine. */
  function Hoisted(states: seq<State>, ts: seq<Transition>): seq<Transition> {
    FirstOccurrences(LiftAll(states, ts))
  }

  /** The normalizer's loop over the transitions. */
  method HoistTransitions(states: seq<State>, transitions: seq<Transition>) returns (norm: seq<Transition>)
    ensures norm == Hoisted(states, transitions)
  {
    norm := [];
    var seen: set<Transition> := {};
    for i := 0 to |transitions|
      invariant norm == FirstOccurrences(LiftAll(states, transitions[..i]))
      invariant forall t :: t in seen <==> t in norm
    {
      var t := transitions[i];
      var ps := ParentOf(states, t.source);
      var src := t.source;
      if ps.Some? && ParentOf(states, t.target) != ps && t.target != ps.value {
        src := ps.value;
      }
      var lifted := Transition(src, t.event, t.target);
      assert transitions[..i + 1][..i] == transitions[..i];
      assert LiftAll(states, transitions[..i + 1]) == LiftAll(states, transitions[..i]) + [lifted];
      if lifted !in seen {
        seen := seen + {lifted};
        norm := norm + [lifted];
      }
    }
    assert transitions[..|transitions|] == transitions;
  }

  lemma InHoisted(states: seq<State>, ts: seq<Transition>)
    ensures forall t :: t in ts ==> Lift(states, t) in Hoisted(states, ts)
    ensures forall u :: u in Hoisted(states, ts) ==> exists t :: t in ts && u == Lift(states, t)
  {
    var lifted := LiftAll(states, ts);
    FirstOccurrencesSameElements(lifted);
    forall t | t in ts ensures Lift(states, t) in lifted {
      var i :| 0 <= i < |ts| && ts[i] == t;
      assert lifted[i] == Lift(states, t);
    }
    forall u | u in lifted ensures exists t :: t in ts && u == Lift(states, t) {
      var i :| 0 <= i < |lifted| && lifted[i] == u;
      assert ts[i] in ts;
    }
  }

  /** Every transition of the normalized machine is one of the machine's, lifted. */
  lemma LiftedFrom(states: seq<State>, ts: seq<Transition>, u: Transition) returns (t: Transition)
    requires u in Hoisted(states, ts)
    ensures t in ts && u == Lift(states, t)
  {
    InHoisted(states, ts);
    t :| t in ts && u == Lift(states, t);
  }

  // ----- repeated passes -----

  function HoistedTimes(states: seq<State>, ts: seq<Transition>, n: nat): seq<Transition> {
    if n == 0 then ts else Hoisted(states, HoistedTimes(states, ts, n - 1))
  }

  predicate NoneCrossing(states: seq<State>, ts: seq<Transition>) {
    forall t :: t in ts ==> !Crossing(states, t)
  }

  /** What crosses after a pass crossed before it, one level further down. */
  lemma BeforePass(states: seq<State>, before: seq<Transition>, u: Transition) returns (v: Transition)
    requires u in Hoisted(states, before) && Crossing(states, u)
    ensures v in before && Crossing(states, v) && ParentOf(states, v.source) == Some(u.source)
  {
    v := LiftedFrom(states, before, u);
  }

  /** After `n` passes a transition still crosses only if its source has climbed `n` levels from that of one of the
      first transitions. */
  lemma {:induction false} ClimbsEachPass(states: seq<State>, ts: seq<Transition>, n: nat, u: Transition)
      returns (t: Transition)
    requires u in HoistedTimes(states, ts, n) && Crossing(states, u)
    ensures t in ts && AncestorAt(states, t.source, n) == Some(u.source)
    decreases n
  {
    if n == 0 {
      t := u;
    } else {
      var v := BeforePass(states, HoistedTimes(states, ts, n - 1), u);
      t := ClimbsEachPass(states, ts, n - 1, v);
      AncestorStep(states, t.source, n - 1);
    }
  }

  /** As many passes as the nesting is deep leave no transition that crosses a composite's border. */
  lemma PassesSuffice(states: seq<State>, ts: seq<Transition>, depth: nat)
    requires MaxDepth(states, depth)
    ensures NoneCrossing(states, HoistedTimes(states, ts, depth))
  {
    forall u | u in HoistedTimes(states, ts, depth) ensures !Crossing(states, u) {
      if Crossing(states, u) {
        var t := ClimbsEachPass(states, ts, depth, u);
        assert EndsWithin(states, t.source, depth);
        AncestorStep(states, t.source, depth);
      }
    }
  }

  /** The exit ends where the parent of its composite would keep it: the composite is at top level, or the exit leads
      to its composite's parent or to one of its composite's siblings. */
  predicate StaysNear(states: seq<State>, t: Transition)
    requires Crossing(states, t)
  {
    var above := ParentOf(states, ParentOf(states, t.source).value);
    above.None? || ParentOf(states, t.target) == above || Some(t.target) == above
  }

  /** Every exit leaves one level of nesting only. */
  predicate ExitsStayNear(states: seq<State>, ts: seq<Transition>) {
    forall t :: t in ts && Crossing(states, t) ==> StaysNear(states, t)
  }

  lemma CrossesAgainIff(states: seq<State>, t: Transition)
    ensures Crossing(states, Lift(states, t)) <==> Crossing(states, t) && !StaysNear(states, t)
  {
  }

  /** The normalizer's single pass leaves no crossing transition if and only if every exit leaves one level only. */
  lemma OnePassSufficesIff(states: seq<State>, ts: seq<Transition>)
    ensures NoneCrossing(states, Hoisted(states, ts)) <==> ExitsStayNear(states, ts)
  {
    InHoisted(states, ts);
    forall t | t in ts ensures Crossing(states, Lift(states, t)) <==> Crossing(states, t) && !StaysNear(states, t) {
      CrossesAgainIff(states, t);
    }
  }

  lemma SettledIff(states: seq<State>, ts: seq<Transition>)
    requires Distinct(ts)
    ensures Hoisted(states, ts) == ts <==> forall t :: t in ts ==> Lift(states, t) == t
  {
    var lifted := LiftAll(states, ts);
    FirstOccurrencesShorten(lifted);
    if forall t :: t in ts ==> Lift(states, t) == t {
      assert lifted == ts;
      FirstOccurrencesOfDistinct(ts);
    }
    if Hoisted(states, ts) == ts {
      forall t | t in ts ensures Lift(states, t) == t {
        var i :| 0 <= i < |ts| && ts[i] == t;
        assert lifted[i] == Lift(states, t);
      }
    }
  }

  /** Normalizing again changes nothing if and only if every exit leaves one level only, but for composites that
      are their own parent, as a name declared twice can be. */
  lemma HoistedAgainIff(states: seq<State>, ts: seq<Transition>)
    ensures Hoisted(states, Hoisted(states, ts)) == Hoisted(states, ts)
       <==> forall t :: t in ts && Crossing(states, t) && !StaysNear(states, t)
                        ==> ParentOf(states, ParentOf(states, t.source).value) == ParentOf(states, t.source)
  {
    var once := Hoisted(states, ts);
    FirstOccurrencesDistinct(LiftAll(states, ts));
    SettledIff(states, once);
    InHoisted(states, ts);
    forall t | t in ts ensures Crossing(states, Lift(states, t)) <==> Crossing(states, t) && !StaysNear(states, t) {
      CrossesAgainIff(states, t);
    }
  }

  /** Under the two-level rule the single pass suffices, and running it again changes nothing. */
  lemma TwoLevelsOnePass(states: seq<State>, ts: seq<Transition>)
    requires MaxDepth(states, 1)
    ensures ExitsStayNear(states, ts) && NoneCrossing(states, Hoisted(states, ts))
    ensures Hoisted(states, Hoisted(states, ts)) == Hoisted(states, ts)
  {
    PassesSuffice(states, ts, 1);
    assert HoistedTimes(states, ts, 1) == Hoisted(states, HoistedTimes(states, ts, 0)) == Hoisted(states, ts);
    OnePassSufficesIff(states, ts);
    HoistedAgainIff(states, ts);
  }

  /** Composites `a` and `b`, one in the other, a child `c` of the inner one, and a state outside. */
  const NESTED := [State("a", true, false, None), State("b", true, false, Some("a")),
                   State("c", true, false, Some("b")), State("out", false, true, None)]
  const FAR_EXIT := Transition("c", "leave", "out")

  lemma NestedParents()
    ensures ParentOf(NESTED, "a") == None && ParentOf(NESTED, "out") == None
    ensures ParentOf(NESTED, "b") == Some("a") && ParentOf(NESTED, "c") == Some("b")
  {
    ParentOfUnique(NESTED, 0);
    ParentOfUnique(NESTED, 1);
    ParentOfUnique(NESTED, 2);
    ParentOfUnique(NESTED, 3);
  }

  /** With three levels a transition that stays inside its composite can be moved: here one from the inner composite
      to its own child. */
  lemma InnerMoveLifted()
    ensures InheritsFrom(NESTED, "c", "a")
    ensures Lift(NESTED, Transition("b", "e", "c")) == Transition("a", "e", "c")
  {
    NestedParents();
    assert AncestorAt(NESTED, "c", 2) == AncestorAt(NESTED, "b", 1) == AncestorAt(NESTED, "a", 0);
  }

  /** Three levels and one pass: the lifted transition may still cross. */
  lemma OnePassMayNotSuffice()
    ensures !NoneCrossing(NESTED, Hoisted(NESTED, [FAR_EXIT]))
  {
    NestedParents();
    assert FAR_EXIT in [FAR_EXIT] && Crossing(NESTED, FAR_EXIT) && !StaysNear(NESTED, FAR_EXIT);
    OnePassSufficesIff(NESTED, [FAR_EXIT]);
  }

  // ----- events handled -----

  lemma InheritsFromParent(states: seq<State>, sid: string, a: string)
    requires InheritsFrom(states, sid, a) && ParentOf(states, a).Some?
    ensures InheritsFrom(states, sid, ParentOf(states, a).value)
  {
    var n: nat :| AncestorAt(states, sid, n) == Some(a);
    AncestorStep(states, sid, n);
  }

  lemma InheritsFromTransitive(states: seq<State>, sid: string, a: string, b: string)
    requires InheritsFrom(states, sid, a) && InheritsFrom(states, a, b)
    ensures InheritsFrom(states, sid, b)
  {
    var m: nat :| AncestorAt(states, sid, m) == Some(a);
    var n: nat :| AncestorAt(states, a, n) == Some(b);
    AncestorCompose(states, sid, m, n);
    assert AncestorAt(states, sid, m + n) == Some(b);
  }

  lemma InheritsFromSelf(states: seq<State>, sid: string)
    ensures InheritsFrom(states, sid, sid)
  {
    assert AncestorAt(states, sid, 0) == Some(sid);
  }

  /** A state handles an event itself or through an ancestor. */
  ghost predicate Handles(states: seq<State>, ts: seq<Transition>, sid: string, event: string) {
    exists t :: t in ts && t.event == event && InheritsFrom(states, sid, t.source)
  }

  /** Some child of the state or of one of its ancestors exits on the event. */
  ghost predicate GainsFrom(states: seq<State>, t: Transition, sid: string) {
    Crossing(states, t) && InheritsFrom(states, sid, ParentOf(states, t.source).value)
  }

  /** After hoisting a state handles what it handled before and the events on which a child of its own or of one of
      its ancestors exits, and nothing else. */
  lemma HandlesAfterIff(states: seq<State>, ts: seq<Transition>, sid: string, event: string)
    ensures Handles(states, Hoisted(states, ts), sid, event)
       <==> Handles(states, ts, sid, event) || exists t :: t in ts && t.event == event && GainsFrom(states, t, sid)
  {
    var hoisted := Hoisted(states, ts);
    InHoisted(states, ts);
    forall t | t in ts && t.event == event && (InheritsFrom(states, sid, t.source) || GainsFrom(states, t, sid))
      ensures Handles(states, hoisted, sid, event)
    {
      if Crossing(states, t) && InheritsFrom(states, sid, t.source) {
        InheritsFromParent(states, sid, t.source);
      }
      assert Lift(states, t) in hoisted && InheritsFrom(states, sid, Lift(states, t).source);
    }
    if Handles(states, hoisted, sid, event) {
      var u :| u in hoisted && u.event == event && InheritsFrom(states, sid, u.source);
      var t :| t in ts && u == Lift(states, t);
      assert Crossing(states, t) ==> GainsFrom(states, t, sid);
    }
  }

  /** Hoisting takes no event away from any state, at any depth: it adds no deadlock and no missing event. */
  lemma HoistingKeepsHandled(states: seq<State>, ts: seq<Transition>, sid: string, event: string)
    requires Handles(states, ts, sid, event)
    ensures Handles(states, Hoisted(states, ts), sid, event)
  {
    HandlesAfterIff(states, ts, sid, event);
  }

  /** Each composite one of whose children exits on an event already handled that event. */
  ghost predicate ExitsAlreadyHandled(states: seq<State>, ts: seq<Transition>) {
    forall t :: t in ts && Crossing(states, t) ==> Handles(states, ts, ParentOf(states, t.source).value, t.event)
  }

  /** Completeness: hoisting leaves the handled events exactly as they were if and only if each composite already
      handled the events its children exit on; otherwise it hides gaps of their siblings. */
  lemma HandledUnchangedIff(states: seq<State>, ts: seq<Transition>)
    ensures (forall sid, event ::
               Handles(states, Hoisted(states, ts), sid, event) <==> Handles(states, ts, sid, event))
       <==> ExitsAlreadyHandled(states, ts)
  {
    var hoisted := Hoisted(states, ts);
    if ExitsAlreadyHandled(states, ts) {
      forall sid, event ensures Handles(states, hoisted, sid, event) <==> Handles(states, ts, sid, event) {
        HandlesAfterIff(states, ts, sid, event);
        if t :| t in ts && t.event == event && GainsFrom(states, t, sid) {
          HandledBelow(states, ts, sid, ParentOf(states, t.source).value, event);
        }
      }
    }
    if forall sid, event :: Handles(states, hoisted, sid, event) <==> Handles(states, ts, sid, event) {
      forall t | t in ts && Crossing(states, t)
        ensures Handles(states, ts, ParentOf(states, t.source).value, t.event)
      {
        var p := ParentOf(states, t.source).value;
        InheritsFromSelf(states, p);
        HandlesAfterIff(states, ts, p, t.event);
        assert GainsFrom(states, t, p);
        assert Handles(states, hoisted, p, t.event);
      }
    }
  }

  lemma HandledBelow(states: seq<State>, ts: seq<Transition>, sid: string, a: string, event: string)
    requires InheritsFrom(states, sid, a) && Handles(states, ts, a, event)
    ensures Handles(states, ts, sid, event)
  {
    var v :| v in ts && v.event == event && InheritsFrom(states, a, v.source);
    InheritsFromTransitive(states, sid, a, v.source);
  }

  // ----- dead ends -----

  ghost predicate NonFinal(states: seq<State>, sid: string) {
    exists i :: 0 <= i < |states| && states[i].id == sid && !states[i].final
  }

  /** A deadlock: a state that is not final and handles no event. */
  ghost predicate DeadEnd(states: seq<State>, ts: seq<Transition>, sid: string) {
    NonFinal(states, sid) && forall event :: !Handles(states, ts, sid, event)
  }

  /** A dead end stays one if and only if no child of one of its ancestors, or of its own, has an exit; and no state
      becomes one. */
  lemma DeadEndAfterIff(states: seq<State>, ts: seq<Transition>, sid: string)
    ensures DeadEnd(states, Hoisted(states, ts), sid)
       <==> DeadEnd(states, ts, sid) && forall t :: t in ts ==> !GainsFrom(states, t, sid)
  {
    forall event ensures Handles(states, Hoisted(states, ts), sid, event)
                    <==> || Handles(states, ts, sid, event)
                         || exists t :: t in ts && t.event == event && GainsFrom(states, t, sid)
    {
      HandlesAfterIff(states, ts, sid, event);
    }
    if DeadEnd(states, Hoisted(states, ts), sid) {
      forall t | t in ts ensures !GainsFrom(states, t, sid) {
        assert !Handles(states, Hoisted(states, ts), sid, t.event);
      }
    }
  }

  /** Deadlock: hoisting leaves the dead ends as they were if and only if no state at or below the composite of an
      exit is a dead end. */
  lemma DeadEndsUnchangedIff(states: seq<State>, ts: seq<Transition>)
    ensures (forall sid :: DeadEnd(states, Hoisted(states, ts), sid) <==> DeadEnd(states, ts, sid))
       <==> forall t, sid :: t in ts && GainsFrom(states, t, sid) ==> !DeadEnd(states, ts, sid)
  {
    forall sid ensures DeadEnd(states, Hoisted(states, ts), sid)
                  <==> DeadEnd(states, ts, sid) && forall t :: t in ts ==> !GainsFrom(states, t, sid)
    {
      DeadEndAfterIff(states, ts, sid);
    }
  }

  // ----- determinism -----

  /** One target for each source and event. */
  ghost predicate Deterministic(ts: seq<Transition>) {
    forall t, u :: t in ts && u in ts && t.source == u.source && t.event == u.event ==> t.target == u.target
  }

  /** The exits of a composite's children on one event agree on the target, with each other and with the
      composite's own transitions. */
  ghost predicate MergedExitsAgree(states: seq<State>, ts: seq<Transition>) {
    forall t, u :: t in ts && u in ts && Crossing(states, t) && t.event == u.event
                   && (if Crossing(states, u) then ParentOf(states, u.source) == ParentOf(states, t.source)
                       else Some(u.source) == ParentOf(states, t.source))
                   ==> t.target == u.target
  }

  /** A deterministic machine stays deterministic exactly when the exits merged onto a composite agree. */
  lemma StaysDeterministicIff(states: seq<State>, ts: seq<Transition>)
    requires Deterministic(ts)
    ensures Deterministic(Hoisted(states, ts)) <==> MergedExitsAgree(states, ts)
  {
    var hoisted := Hoisted(states, ts);
    InHoisted(states, ts);
    if MergedExitsAgree(states, ts) {
      forall a, b | a in hoisted && b in hoisted && a.source == b.source && a.event == b.event
        ensures a.target == b.target
      {
        var t :| t in ts && a == Lift(states, t);
        var u :| u in ts && b == Lift(states, u);
        if !Crossing(states, t) && Crossing(states, u) {
          assert u.target == t.target;
        }
      }
    }
    if Deterministic(hoisted) {
      forall t, u | t in ts && u in ts && Crossing(states, t) && t.event == u.event
                    && (if Crossing(states, u) then ParentOf(states, u.source) == ParentOf(states, t.source)
                        else Some(u.source) == ParentOf(states, t.source))
        ensures t.target == u.target
      {
        assert Lift(states, t) in hoisted && Lift(states, u) in hoisted;
      }
    }
  }

  /** A composite `c` with children `x` and `y`, and two states outside it. */
  const SIBLINGS := [State("c", false, false, None), State("x", true, false, Some("c")),
                     State("y", false, false, Some("c")), State("o", false, true, None), State("p", false, true, None)]

  lemma SiblingParents()
    ensures ParentOf(SIBLINGS, "c") == None && ParentOf(SIBLINGS, "o") == None && ParentOf(SIBLINGS, "p") == None
    ensures ParentOf(SIBLINGS, "x") == Some("c") && ParentOf(SIBLINGS, "y") == Some("c")
  {
    ParentOfUnique(SIBLINGS, 0);
    ParentOfUnique(SIBLINGS, 1);
    ParentOfUnique(SIBLINGS, 2);
    ParentOfUnique(SIBLINGS, 3);
    ParentOfUnique(SIBLINGS, 4);
  }

  /** The documentation says determinism is unchanged.  Siblings that exit on one event to different targets
      become a conflict. */
  lemma DeterminismCanBeLost()
    ensures var ts := [Transition("x", "e", "o"), Transition("y", "e", "p")];
            Deterministic(ts) && !Deterministic(Hoisted(SIBLINGS, ts))
  {
    SiblingParents();
    var t, u := Transition("x", "e", "o"), Transition("y", "e", "p");
    assert t in [t, u] && u in [t, u];
    assert !MergedExitsAgree(SIBLINGS, [t, u]);
    StaysDeterministicIff(SIBLINGS, [t, u]);
  }

  /** The documentation says deadlocks and completeness are unchanged.  A sibling that handles nothing, a dead
      end, is no longer seen to be one. */
  lemma DeadlockCanBeHidden()
    ensures var ts := [Transition("x", "e", "o")];
            !Handles(SIBLINGS, ts, "y", "e") && Handles(SIBLINGS, Hoisted(SIBLINGS, ts), "y", "e")
            && DeadEnd(SIBLINGS, ts, "y") && !DeadEnd(SIBLINGS, Hoisted(SIBLINGS, ts), "y")
  {
    SiblingParents();
    var t := Transition("x", "e", "o");
    InHoisted(SIBLINGS, [t]);
    assert t in [t];
    AncestorStep(SIBLINGS, "y", 0);
    AncestorStep(SIBLINGS, "y", 1);
    assert AncestorAt(SIBLINGS, "y", 1) == Some("c");
    forall n: nat ensures AncestorAt(SIBLINGS, "y", n) != Some("x") {
      if n >= 2 {
        AncestorsEnd(SIBLINGS, "y", 2, n);
      }
    }
    assert !InheritsFrom(SIBLINGS, "y", "x");
    assert Lift(SIBLINGS, t).source == "c" && InheritsFrom(SIBLINGS, "y", "c");
    assert SIBLINGS[2].id == "y" && NonFinal(SIBLINGS, "y");
    HandlesAfterIff(SIBLINGS, [t], "y", "e");
  }
}
