/** The daily token budget: a counter per day that calls check before and add to after, without a lock.  Both
    the check and the record first compute the day's key and then talk to the store, so midnight may pass in
    between. */
module Budget {
  type Day = nat

  /** One caller at a time per slot: idle, about to read the counter of a day, in a call, or about to add its
      tokens to the counter of a day. */
  datatype Caller = Idle | Checking(day: Day) | Calling | Recording(day: Day, tokens: nat)

  datatype State = State(today: Day, used: map<Day, nat>, callers: seq<Caller>, failedOpen: nat)

  datatype Step =
    | StartCheck(c: nat)
    | FinishCheck(c: nat)
    | CheckFails(c: nat)
    | StartRecord(c: nat, tokens: nat)
    | FinishRecord(c: nat)
    | GiveUp(c: nat)
    | Midnight

  function Used(s: State, day: Day): nat {
    if day in s.used then s.used[day] else 0
  }

  function Init(callers: nat): State {
    State(0, map[], seq(callers, _ => Idle), 0)
  }

  predicate IsCaller(s: State, c: nat) {
    c < |s.callers|
  }

  predicate Enabled(s: State, step: Step, most: nat) {
    match step
    case StartCheck(c) => IsCaller(s, c) && s.callers[c].Idle?
    case FinishCheck(c) => IsCaller(s, c) && s.callers[c].Checking?
    case CheckFails(c) => IsCaller(s, c) && s.callers[c].Checking?
    case StartRecord(c, tokens) => IsCaller(s, c) && s.callers[c].Calling? && tokens <= most
    case FinishRecord(c) => IsCaller(s, c) && s.callers[c].Recording?
    case GiveUp(c) => IsCaller(s, c)
    case Midnight => true
  }

  /** A budget of zero or less means no limit. */
  predicate Refuses(budget: int, used: nat) {
    budget > 0 && used >= budget
  }

  /** A refused call ends; a store that cannot be read lets the call through; a call that reports no tokens, or
      whose record fails, adds nothing. */
  function Apply(s: State, step: Step, budget: int, most: nat): State
    requires Enabled(s, step, most)
  {
    match step
    case StartCheck(c) => s.(callers := s.callers[c := Checking(s.today)])
    case FinishCheck(c) =>
      s.(callers := s.callers[c := if Refuses(budget, Used(s, s.callers[c].day)) then Idle else Calling])
    case CheckFails(c) => s.(callers := s.callers[c := Calling], failedOpen := s.failedOpen + 1)
    case StartRecord(c, tokens) =>
      s.(callers := s.callers[c := if tokens == 0 then Idle else Recording(s.today, tokens)])
    case FinishRecord(c) =>
      var day, tokens := s.callers[c].day, s.callers[c].tokens;
      s.(callers := s.callers[c := Idle], used := s.used[day := Used(s, day) + tokens])
    case GiveUp(c) => s.(callers := s.callers[c := Idle])
    case Midnight => s.(today := s.today + 1)
  }

  /** Whether a caller may still add tokens to the counter of `day` without reading that counter first. */
  function MayAdd(caller: Caller, day: Day, today: Day): nat {
    match caller
    case Idle => 0
    case Checking(d) => if d < day == today then 1 else 0
    case Calling => if day == today then 1 else 0
    case Recording(d, _) => if d == day then 1 else 0
  }

  function Adders(callers: seq<Caller>, day: Day, today: Day): nat {
    if callers == [] then 0 else MayAdd(callers[0], day, today) + Adders(callers[1..], day, today)
  }

  lemma {:induction false} AddersUpdate(callers: seq<Caller>, c: nat, caller: Caller, day: Day, today: Day)
    requires c < |callers|
    ensures Adders(callers[c := caller], day, today) + MayAdd(callers[c], day, today)
         == Adders(callers, day, today) + MayAdd(caller, day, today)
  {
    var updated := callers[c := caller];
    if c == 0 {
      assert updated[1..] == callers[1..];
    } else {
      assert updated[1..] == callers[1..][c - 1 := caller];
      AddersUpdate(callers[1..], c - 1, caller, day, today);
    }
  }

  lemma {:induction false} AddersBounded(callers: seq<Caller>, day: Day, today: Day)
    ensures Adders(callers, day, today) <= |callers|
  {
    if callers != [] {
      AddersBounded(callers[1..], day, today);
    }
  }

  lemma {:induction false} AddersLater(callers: seq<Caller>, day: Day, today: Day)
    requires day <= today
    ensures Adders(callers, day, today + 1) <= Adders(callers, day, today)
  {
    if callers != [] {
      AddersLater(callers[1..], day, today);
    }
  }

  /** Tokens, in units of whole calls: `n * most`. */
  function Calls(n: nat, most: nat): nat {
    if n == 0 then 0 else Calls(n - 1, most) + most
  }

  lemma {:induction false} CallsIsProduct(n: nat, most: nat)
    ensures Calls(n, most) == n * most
  {
    if n > 0 {
      CallsIsProduct(n - 1, most);
      assert (n - 1) * most + most == n * most;
    }
  }

  lemma {:induction false} CallsMonotone(m: nat, n: nat, most: nat)
    requires m <= n
    ensures Calls(m, most) <= Calls(n, most)
  {
    if m < n {
      CallsMonotone(m, n - 1, most);
    }
  }

  /** What has been recorded for a day, together with all that may still be added, stays below the budget plus
      one call for every caller and every check that failed open. */
  ghost predicate DayBounded(s: State, day: Day, budget: int, most: nat) {
    Used(s, day) + Calls(Adders(s.callers, day, s.today), most) <= budget - 1 + Calls(|s.callers| + s.failedOpen, most)
  }

  ghost predicate Inv(s: State, budget: int, most: nat) {
    && (forall day :: day in s.used ==> day <= s.today)
    && (forall c :: 0 <= c < |s.callers| && s.callers[c].Checking? ==> s.callers[c].day <= s.today)
    && (forall c :: 0 <= c < |s.callers| && s.callers[c].Recording? ==>
       s.callers[c].day <= s.today && s.callers[c].tokens <= most)
    && (forall day: Day :: day <= s.today ==> DayBounded(s, day, budget, most))
  }

  lemma {:induction false} IdleAdders(callers: seq<Caller>, day: Day, today: Day)
    requires forall c :: 0 <= c < |callers| ==> callers[c].Idle?
    ensures Adders(callers, day, today) == 0
  {
    if callers != [] {
      IdleAdders(callers[1..], day, today);
    }
  }

  lemma InitInv(callers: nat, budget: int, most: nat)
    requires budget >= 1
    ensures Inv(Init(callers), budget, most)
  {
    forall day: Day ensures DayBounded(Init(callers), day, budget, most) {
      IdleAdders(Init(callers).callers, day, 0);
      assert Calls(0, most) == 0;
    }
  }

  /** A step of one caller, for one day. */
  lemma CallerStep(s: State, step: Step, budget: int, most: nat, day: Day)
    requires budget >= 1 && Inv(s, budget, most) && Enabled(s, step, most) && !step.Midnight? && day <= s.today
    ensures DayBounded(Apply(s, step, budget, most), day, budget, most)
  {
    var s', c := Apply(s, step, budget, most), step.c;
    assert DayBounded(s, day, budget, most);
    AddersUpdate(s.callers, c, s'.callers[c], day, s.today);
    var before, after := Adders(s.callers, day, s.today), Adders(s'.callers, day, s.today);
    if step.FinishCheck? && s'.callers[c].Calling? && day == s.today && s.callers[c].day == day {
      AddersBounded(s'.callers, day, s.today);
      CallsMonotone(after, |s.callers| + s.failedOpen, most);
    } else if step.CheckFails? {
      CallsMonotone(after, before + 1, most);
    } else {
      CallsMonotone(after, before, most);
    }
  }

  lemma MidnightStep(s: State, budget: int, most: nat, day: Day)
    requires budget >= 1 && Inv(s, budget, most) && day <= s.today + 1
    ensures DayBounded(Apply(s, Midnight, budget, most), day, budget, most)
  {
    if day <= s.today {
      assert DayBounded(s, day, budget, most);
      AddersLater(s.callers, day, s.today);
      CallsMonotone(Adders(s.callers, day, s.today + 1), Adders(s.callers, day, s.today), most);
    } else {
      AddersBounded(s.callers, day, s.today + 1);
      CallsMonotone(Adders(s.callers, day, s.today + 1), |s.callers| + s.failedOpen, most);
    }
  }

  lemma StepKeepsInv(s: State, step: Step, budget: int, most: nat)
    requires budget >= 1 && Inv(s, budget, most) && Enabled(s, step, most)
    ensures Inv(Apply(s, step, budget, most), budget, most)
  {
    var s' := Apply(s, step, budget, most);
    forall day: Day | day <= s'.today ensures DayBounded(s', day, budget, most) {
      if step.Midnight? {
        MidnightStep(s, budget, most, day);
      } else {
        CallerStep(s, step, budget, most, day);
      }
    }
  }

  /** Any interleaving of checks, calls, records and midnights. */
  ghost predicate Execution(callers: nat, budget: int, most: nat, states: seq<State>, steps: seq<Step>) {
    && |states| == |steps| + 1
    && states[0] == Init(callers)
    && forall i :: 0 <= i < |steps| ==>
       Enabled(states[i], steps[i], most) && states[i + 1] == Apply(states[i], steps[i], budget, most)
  }

  lemma {:induction false} AlwaysInv(callers: nat, budget: int, most: nat, states: seq<State>, steps: seq<Step>, i: nat)
    requires budget >= 1 && Execution(callers, budget, most, states, steps) && i < |states|
    ensures Inv(states[i], budget, most) && |states[i].callers| == callers
  {
    if i == 0 {
      InitInv(callers, budget, most);
    } else {
      AlwaysInv(callers, budget, most, states, steps, i - 1);
      StepKeepsInv(states[i - 1], steps[i - 1], budget, most);
    }
  }

  /** With a positive budget, at most `callers` calls at once and at most `most` tokens a call, the usage recorded
      for any day never exceeds the budget by more than one call for every caller and for every check that the
      store could not answer, less one token. */
  lemma UsageBounded(callers: nat, budget: int, most: nat, states: seq<State>, steps: seq<Step>, i: nat, day: Day)
    requires budget >= 1 && Execution(callers, budget, most, states, steps) && i < |states|
    ensures Used(states[i], day) <= budget - 1 + (callers + states[i].failedOpen) * most
  {
    var s := states[i];
    AlwaysInv(callers, budget, most, states, steps, i);
    CallsIsProduct(callers + s.failedOpen, most);
    assert 0 <= Calls(callers + s.failedOpen, most);
    if day <= s.today {
      assert DayBounded(s, day, budget, most);
    }
  }

  lemma {:induction false} NoFailures(callers: nat, budget: int, most: nat, states: seq<State>, steps: seq<Step>,
                                      i: nat)
    requires Execution(callers, budget, most, states, steps) && i < |states|
    requires forall j :: 0 <= j < |steps| ==> !steps[j].CheckFails?
    ensures states[i].failedOpen == 0
  {
    if i > 0 {
      NoFailures(callers, budget, most, states, steps, i - 1);
    }
  }

  /** Without store failures the overshoot is at most one call for every caller. */
  lemma UsageWithoutFailures(callers: nat, budget: int, most: nat, states: seq<State>, steps: seq<Step>, i: nat,
                             day: Day)
    requires budget >= 1 && Execution(callers, budget, most, states, steps) && i < |states|
    requires forall j :: 0 <= j < |steps| ==> !steps[j].CheckFails?
    ensures Used(states[i], day) <= budget - 1 + callers * most
  {
    NoFailures(callers, budget, most, states, steps, i);
    UsageBounded(callers, budget, most, states, steps, i, day);
  }

  // ----- the bound is reached -----

  /** A run without store failures that ends in `last`. */
  ghost predicate Leads(callers: nat, budget: int, most: nat, states: seq<State>, steps: seq<Step>, last: State) {
    && Execution(callers, budget, most, states, steps)
    && states[|states| - 1] == last
    && forall j :: 0 <= j < |steps| ==> !steps[j].CheckFails?
  }

  lemma Extend(callers: nat, budget: int, most: nat, states: seq<State>, steps: seq<Step>, last: State, step: Step)
    returns (states': seq<State>, steps': seq<Step>)
    requires Leads(callers, budget, most, states, steps, last) && Enabled(last, step, most) && !step.CheckFails?
    ensures Leads(callers, budget, most, states', steps', Apply(last, step, budget, most))
  {
    states', steps' := states + [Apply(last, step, budget, most)], steps + [step];
  }

  /** The first `n` callers in one stage, the others in another. */
  function Stages(callers: nat, n: nat, first: Caller, rest: Caller): (r: seq<Caller>)
    ensures |r| == callers && forall c :: 0 <= c < callers ==> r[c] == if c < n then first else rest
  {
    seq(callers, c => if c < n then first else rest)
  }

  lemma StagesAdvance(callers: nat, n: nat, first: Caller, rest: Caller)
    requires n < callers
    ensures Stages(callers, n, first, rest)[n := first] == Stages(callers, n + 1, first, rest)
  {
  }

  function Day0(used: map<Day, nat>, callers: seq<Caller>): State {
    State(0, used, callers, 0)
  }

  /** One whole call of caller `c`. */
  lemma OneCall(callers: nat, budget: int, most: nat, states: seq<State>, steps: seq<Step>, last: State, c: nat,
                tokens: nat)
    returns (states': seq<State>, steps': seq<Step>)
    requires Leads(callers, budget, most, states, steps, last) && last.today == 0 && c < |last.callers|
    requires last.callers[c].Idle? && (budget <= 0 || Used(last, 0) < budget) && 1 <= tokens <= most
    ensures Leads(callers, budget, most, states', steps',
                  last.(used := last.used[0 := Used(last, 0) + tokens]))
  {
    var s1 := Apply(last, StartCheck(c), budget, most);
    states', steps' := Extend(callers, budget, most, states, steps, last, StartCheck(c));
    var s2 := Apply(s1, FinishCheck(c), budget, most);
    states', steps' := Extend(callers, budget, most, states', steps', s1, FinishCheck(c));
    var s3 := Apply(s2, StartRecord(c, tokens), budget, most);
    states', steps' := Extend(callers, budget, most, states', steps', s2, StartRecord(c, tokens));
    states', steps' := Extend(callers, budget, most, states', steps', s3, FinishRecord(c));
    var s4 := Apply(s3, FinishRecord(c), budget, most);
    assert s4.callers == last.callers;
  }

  /** A single caller can bring the usage to any value below the budget, and to any value if there is none. */
  lemma {:induction false} FillUp(callers: nat, budget: int, most: nat, target: nat)
    returns (states: seq<State>, steps: seq<Step>, used: map<Day, nat>)
    requires callers >= 1 && most >= 1 && (budget <= 0 || target < budget)
    ensures Leads(callers, budget, most, states, steps, Day0(used, Stages(callers, 0, Idle, Idle)))
    ensures (if 0 in used then used[0] else 0) == target
    decreases target
  {
    if target == 0 {
      states, steps, used := [Init(callers)], [], map[];
      assert Init(callers).callers == Stages(callers, 0, Idle, Idle);
    } else {
      var chunk := if target < most then target else most;
      var before;
      states, steps, before := FillUp(callers, budget, most, target - chunk);
      var last := Day0(before, Stages(callers, 0, Idle, Idle));
      states, steps := OneCall(callers, budget, most, states, steps, last, 0, chunk);
      used := before[0 := target];
    }
  }

  /** Then any number of callers can pass their check. */
  lemma {:induction false} PassChecks(callers: nat, budget: int, most: nat, n: nat)
    returns (states: seq<State>, steps: seq<Step>, used: map<Day, nat>)
    requires callers >= 1 && most >= 1 && budget >= 1 && n <= callers
    ensures Leads(callers, budget, most, states, steps, Day0(used, Stages(callers, n, Calling, Idle)))
    ensures (if 0 in used then used[0] else 0) == budget - 1
    decreases n
  {
    if n == 0 {
      states, steps, used := FillUp(callers, budget, most, budget - 1);
      assert Stages(callers, 0, Calling, Idle) == Stages(callers, 0, Idle, Idle);
    } else {
      states, steps, used := PassChecks(callers, budget, most, n - 1);
      var last := Day0(used, Stages(callers, n - 1, Calling, Idle));
      var checking := Apply(last, StartCheck(n - 1), budget, most);
      states, steps := Extend(callers, budget, most, states, steps, last, StartCheck(n - 1));
      states, steps := Extend(callers, budget, most, states, steps, checking, FinishCheck(n - 1));
      StagesAdvance(callers, n - 1, Calling, Idle);
      assert checking.callers[n - 1 := Calling] == last.callers[n - 1 := Calling];
    }
  }

  /** Caller `c`, in a call, records its tokens and is idle again. */
  lemma OneRecord(callers: nat, budget: int, most: nat, states: seq<State>, steps: seq<Step>, last: State, c: nat)
    returns (states': seq<State>, steps': seq<Step>)
    requires Leads(callers, budget, most, states, steps, last) && last.today == 0 && c < |last.callers|
    requires last.callers[c].Calling? && most >= 1
    ensures Leads(callers, budget, most, states', steps',
                  last.(used := last.used[0 := Used(last, 0) + most], callers := last.callers[c := Idle]))
  {
    var recording := Apply(last, StartRecord(c, most), budget, most);
    states', steps' := Extend(callers, budget, most, states, steps, last, StartRecord(c, most));
    states', steps' := Extend(callers, budget, most, states', steps', recording, FinishRecord(c));
    assert recording.callers[c := Idle] == last.callers[c := Idle];
  }

  /** And each can then record a whole call. */
  lemma {:induction false} RecordAll(callers: nat, budget: int, most: nat, n: nat)
    returns (states: seq<State>, steps: seq<Step>, used: map<Day, nat>)
    requires callers >= 1 && most >= 1 && budget >= 1 && n <= callers
    ensures Leads(callers, budget, most, states, steps, Day0(used, Stages(callers, n, Idle, Calling)))
    ensures (if 0 in used then used[0] else 0) == budget - 1 + Calls(n, most)
    decreases n
  {
    if n == 0 {
      states, steps, used := PassChecks(callers, budget, most, callers);
      assert Stages(callers, callers, Calling, Idle) == Stages(callers, 0, Idle, Calling);
    } else {
      var before;
      states, steps, before := RecordAll(callers, budget, most, n - 1);
      var last := Day0(before, Stages(callers, n - 1, Idle, Calling));
      states, steps := OneRecord(callers, budget, most, states, steps, last, n - 1);
      StagesAdvance(callers, n - 1, Idle, Calling);
      used := before[0 := budget - 1 + Calls(n, most)];
    }
  }

  /** For every budget, number of callers and call size the bound is reached: there is a run without store failures in
      which the recorded usage is the budget plus one whole call for every caller, less one token. */
  lemma BoundIsTight(callers: nat, budget: int, most: nat) returns (states: seq<State>, steps: seq<Step>)
    requires callers >= 1 && most >= 1 && budget >= 1
    ensures Execution(callers, budget, most, states, steps)
    ensures forall j :: 0 <= j < |steps| ==> !steps[j].CheckFails?
    ensures Used(states[|states| - 1], 0) == budget - 1 + callers * most
  {
    var used;
    states, steps, used := RecordAll(callers, budget, most, callers);
    CallsIsProduct(callers, most);
  }

  /** Without a budget there is no limit: any usage is reached, even by one caller. */
  lemma NoBudgetNoLimit(callers: nat, budget: int, most: nat, usage: nat) returns (states: seq<State>, steps: seq<Step>)
    requires callers >= 1 && most >= 1 && budget <= 0
    ensures Execution(callers, budget, most, states, steps)
    ensures forall j :: 0 <= j < |steps| ==> !steps[j].CheckFails?
    ensures Used(states[|states| - 1], 0) == usage
  {
    var used;
    states, steps, used := FillUp(callers, budget, most, usage);
  }
}
