/** The copy of a document's machine that is handed to the verifier, from text to text: what the verifier can
    reach in the copy against what the document's own machine reaches. */
module VerificationCopy {
  import opened Options
  import opened MachineText
  import opened Hierarchy
  import opened Hoisting
  import opened Reachability
  import opened RoundTrip

  /** The layout under which the copy reads back as the hoisted machine. */
  ghost predicate WellLaidOut(orcaMd: string) {
    && Nested(StatesOf(orcaMd))
    && StatesBeforeMarker(orcaMd)
    && TransitionsOf(Head(orcaMd)) == []
    && !HeaderNamedExit(StatesOf(orcaMd), TransitionsOf(orcaMd))
  }

  lemma CopyIsHoisted(orcaMd: string)
    requires WellLaidOut(orcaMd)
    ensures StatesOf(Normalized(orcaMd)) == StatesOf(orcaMd)
    ensures TransitionsOf(Normalized(orcaMd)) == Hoisted(StatesOf(orcaMd), TransitionsOf(orcaMd))
  {
    ReadsBackIff(orcaMd);
  }

  /** What ORCA reads in the copy's text. */
  function ReadInCopy(orcaMd: string): seq<Transition> {
    OrcaEdges(StatesOf(Normalized(orcaMd)), TransitionsOf(Normalized(orcaMd)))
  }

  /** From text to text, at any depth: no state of the document is falsely unreachable in its copy if and only if
      exits that leave more than one level are covered, and the copy reaches exactly the same states if and only if
      moreover the other exits of reachable composites lead somewhere reachable. */
  lemma CopyVerdict(orcaMd: string)
    requires WellLaidOut(orcaMd)
    ensures var states, ts := StatesOf(orcaMd), TransitionsOf(orcaMd);
            && StatesOf(Normalized(orcaMd)) == states
            && ((forall s :: Reachable(states, ts, s) ==> Reachable(states, ReadInCopy(orcaMd), s))
                <==> FarExitsCovered(states, ts))
            && (SameReach(states, ts, ReadInCopy(orcaMd))
                <==> FarExitsCovered(states, ts) && NearExitsLandReachable(states, ts))
  {
    CopyIsHoisted(orcaMd);
    NormalizerKeepsReachableIff(StatesOf(orcaMd), TransitionsOf(orcaMd));
    ReachabilityEquivalentIff(StatesOf(orcaMd), TransitionsOf(orcaMd));
  }

  /** When every exit leaves one level only, as under the two-level rule, nothing is falsely unreachable, and nothing
      is added if and only if every exit of a reachable composite leads somewhere reachable. */
  lemma CopyVerdictNear(orcaMd: string)
    requires WellLaidOut(orcaMd) && ExitsStayNear(StatesOf(orcaMd), TransitionsOf(orcaMd))
    ensures var states, ts := StatesOf(orcaMd), TransitionsOf(orcaMd);
            && (forall s :: Reachable(states, ts, s) ==> Reachable(states, ReadInCopy(orcaMd), s))
            && (SameReach(states, ts, ReadInCopy(orcaMd)) <==> ExitsLandReachable(states, ts))
  {
    CopyVerdict(orcaMd);
    var states, ts := StatesOf(orcaMd), TransitionsOf(orcaMd);
    assert FarExitsCovered(states, ts);
    NearExitsEquivalentIff(states, ts);
    ReachabilityEquivalentIff(states, ts);
  }
}
