/** Running machines behind a cache, with every machine's snapshot in a store. */
module Bridge {
  import opened Options
  import opened ContractMachine

  // ----- the abstract bridge and the plain map it stands for -----

  /** Cached machines and stored snapshots, by run id. */
  datatype Abstract = Abstract(cache: map<string, Snapshot>, rows: map<string, Snapshot>)

  datatype Reply = Got(machine: Snapshot) | Sent(taken: bool, machine: Snapshot) | ContextRequired | UnknownDocType

  function Updated(m: Snapshot, context: Context): Snapshot {
    m.(context := m.context + context)
  }

  /** `get_or_create`: the cached machine, or one resumed from its snapshot, or a new one, which needs a context
      and whose first snapshot is stored. */
  function GetOrCreate(a: Abstract, runId: string, known: bool, context: Context): (Abstract, Reply) {
    if runId in a.cache then
      var m := Updated(a.cache[runId], context);
      (a.(cache := a.cache[runId := m]), Got(m))
    else if context == map[] && runId !in a.rows then (a, ContextRequired)
    else if !known then (a, UnknownDocType)
    else if runId in a.rows then
      var m := Updated(a.rows[runId], context);
      (a.(cache := a.cache[runId := m]), Got(m))
    else
      var m := Updated(Snapshot(Received, context), context);
      (Abstract(a.cache[runId := m], a.rows[runId := m]), Got(m))
  }

  /** `send`: a taken transition stores the new snapshot. */
  function Send(a: Abstract, runId: string, known: bool, event: Event, payload: Context, context: Context)
    : (Abstract, Reply)
  {
    match GetOrCreate(a, runId, known, context)
    case (b, Got(m)) =>
      var (taken, next) := Next(m, event, payload);
      if taken then (Abstract(b.cache[runId := next], b.rows[runId := next]), Sent(true, next))
      else (b, Sent(false, m))
    case (b, reply) => (b, reply)
  }

  function Restart(a: Abstract): Abstract {
    a.(cache := map[])
  }

  /** The same calls on a plain map from run ids to machines that are never dropped. */
  function PlainGetOrCreate(ms: map<string, Snapshot>, runId: string, known: bool, context: Context)
    : (map<string, Snapshot>, Reply)
  {
    if runId in ms then (ms[runId := Updated(ms[runId], context)], Got(Updated(ms[runId], context)))
    else if context == map[] then (ms, ContextRequired)
    else if !known then (ms, UnknownDocType)
    else (ms[runId := Snapshot(Received, context)], Got(Snapshot(Received, context)))
  }

  function PlainSend(ms: map<string, Snapshot>, runId: string, known: bool, event: Event, payload: Context,
                     context: Context)
    : (map<string, Snapshot>, Reply)
  {
    match PlainGetOrCreate(ms, runId, known, context)
    case (ns, Got(m)) =>
      var (taken, next) := Next(m, event, payload);
      (ns[runId := next], Sent(taken, next))
    case (ns, reply) => (ns, reply)
  }

  // ----- when cache and store agree -----

  /** Every cached machine is stored as it is. */
  ghost predicate Coherent(a: Abstract) {
    forall r :: r in a.cache ==> r in a.rows && a.rows[r] == a.cache[r]
  }

  /** The context adds nothing to what the machine already knows. */
  predicate Redundant(m: Snapshot, context: Context) {
    forall key :: key in context ==> key in m.context && m.context[key] == context[key]
  }

  lemma NewContext(context: Context)
    ensures Updated(Snapshot(Received, context), context) == Snapshot(Received, context)
  {
  }

  /** A known run whose document type is known, as it always is once its machine exists. */
  ghost predicate TypesKnown(a: Abstract, runId: string, known: bool) {
    runId in a.rows ==> known
  }

  /** From an agreeing state, a lookup keeps cache and store in agreement if and only if it creates the machine,
      fails, or brings a context that adds nothing. */
  lemma LookupCoherentIff(a: Abstract, runId: string, known: bool, context: Context)
    requires Coherent(a) && TypesKnown(a, runId, known)
    ensures Coherent(GetOrCreate(a, runId, known, context).0)
       <==> runId !in a.rows || Redundant(a.rows[runId], context)
  {
  }

  /** A send keeps them in agreement if and only if moreover some row of the table matches the machine once the context
      is added, since a taken transition stores everything. */
  lemma SendCoherentIff(a: Abstract, runId: string, known: bool, event: Event, payload: Context, context: Context)
    requires Coherent(a) && TypesKnown(a, runId, known)
    ensures Coherent(Send(a, runId, known, event, payload, context).0)
       <==> runId !in a.rows || Redundant(a.rows[runId], context)
            || FirstRow(ROWS, Updated(a.rows[runId], context), event).Some?
  {
    LookupCoherentIff(a, runId, known, context);
    var (b, reply) := GetOrCreate(a, runId, known, context);
    if runId in a.rows {
      assert reply == Got(Updated(a.rows[runId], context)) && b.cache[runId] == reply.machine;
    }
  }

  // ----- the bridge refines the plain map -----

  /** Losing the cache changes nothing a store in agreement with it does not bring back. */
  lemma LookupRefines(a: Abstract, runId: string, known: bool, context: Context)
    requires Coherent(a) && TypesKnown(a, runId, known)
    requires runId in a.rows ==> Redundant(a.rows[runId], context)
    ensures var (b, reply) := GetOrCreate(a, runId, known, context);
            && Coherent(b)
            && (b.rows, reply) == PlainGetOrCreate(a.rows, runId, known, context)
  {
    LookupCoherentIff(a, runId, known, context);
    NewContext(context);
    if runId in a.rows {
      assert a.rows[runId := a.rows[runId]] == a.rows;
    }
  }

  lemma SendRefines(a: Abstract, runId: string, known: bool, event: Event, payload: Context, context: Context)
    requires Coherent(a) && TypesKnown(a, runId, known)
    requires runId in a.rows ==> Redundant(a.rows[runId], context)
    ensures var (b, reply) := Send(a, runId, known, event, payload, context);
            && Coherent(b)
            && (b.rows, reply) == PlainSend(a.rows, runId, known, event, payload, context)
  {
    LookupRefines(a, runId, known, context);
    SendCoherentIff(a, runId, known, event, payload, context);
    var (b, reply) := GetOrCreate(a, runId, known, context);
    if reply.Got? {
      var m := reply.machine;
      assert b.rows[runId] == b.cache[runId] == m;
      assert b.rows[runId := m] == b.rows;
      if !Next(m, event, payload).0 {
        assert Next(m, event, payload).1 == m;
      }
    }
  }

  datatype Call =
    | Lookup(runId: string, known: bool, context: Context)
    | Deliver(runId: string, known: bool, event: Event, payload: Context, context: Context)
    | Crash

  function Perform(a: Abstract, call: Call): (Abstract, seq<Reply>) {
    match call
    case Lookup(runId, known, context) => var (b, reply) := GetOrCreate(a, runId, known, context); (b, [reply])
    case Deliver(runId, known, event, payload, context) =>
      var (b, reply) := Send(a, runId, known, event, payload, context);
      (b, [reply])
    case Crash => (Restart(a), [])
  }

  function PerformPlain(ms: map<string, Snapshot>, call: Call): (map<string, Snapshot>, seq<Reply>) {
    match call
    case Lookup(runId, known, context) => var (ns, reply) := PlainGetOrCreate(ms, runId, known, context); (ns, [reply])
    case Deliver(runId, known, event, payload, context) =>
      var (ns, reply) := PlainSend(ms, runId, known, event, payload, context);
      (ns, [reply])
    case Crash => (ms, [])
  }

  function Replies(a: Abstract, calls: seq<Call>): seq<Reply>
    decreases |calls|
  {
    if calls == [] then [] else
      var (b, replies) := Perform(a, calls[0]);
      replies + Replies(b, calls[1..])
  }

  function PlainReplies(ms: map<string, Snapshot>, calls: seq<Call>): seq<Reply>
    decreases |calls|
  {
    if calls == [] then [] else
      var (ns, replies) := PerformPlain(ms, calls[0]);
      replies + PlainReplies(ns, calls[1..])
  }

  /** A context comes only with the call that creates its machine, or adds nothing. */
  ghost predicate ContextAtCreation(ms: map<string, Snapshot>, call: Call) {
    call.Crash? || (call.runId in ms ==> call.known && Redundant(ms[call.runId], call.context))
  }

  ghost predicate ContextsAtCreation(ms: map<string, Snapshot>, calls: seq<Call>)
    decreases |calls|
  {
    calls == [] || (ContextAtCreation(ms, calls[0]) && ContextsAtCreation(PerformPlain(ms, calls[0]).0, calls[1..]))
  }

  lemma OneCallRefines(a: Abstract, call: Call)
    requires Coherent(a) && ContextAtCreation(a.rows, call)
    ensures Coherent(Perform(a, call).0)
    ensures (Perform(a, call).0.rows, Perform(a, call).1) == PerformPlain(a.rows, call)
  {
    match call
    case Lookup(runId, known, context) => LookupRefines(a, runId, known, context);
    case Deliver(runId, known, event, payload, context) => SendRefines(a, runId, known, event, payload, context);
    case Crash =>
  }

  /** For every sequence of calls that brings contexts only at creation, with crashes anywhere between them, every
      state, context, verdict and error the bridge answers is the one a bridge that never restarts answers. */
  lemma {:induction false} BridgeRefinesPlainMap(a: Abstract, calls: seq<Call>)
    requires Coherent(a) && ContextsAtCreation(a.rows, calls)
    ensures Replies(a, calls) == PlainReplies(a.rows, calls)
    decreases |calls|
  {
    if calls != [] {
      OneCallRefines(a, calls[0]);
      BridgeRefinesPlainMap(Perform(a, calls[0]).0, calls[1..]);
    }
  }

  // ----- exactly when a restart is noticed -----

  /** The machine a run has, wherever it is kept. */
  function Effective(a: Abstract, runId: string): Option<Snapshot> {
    if runId in a.cache then Some(a.cache[runId]) else if runId in a.rows then Some(a.rows[runId]) else None
  }

  /** The same store, and the same machine for every run. */
  ghost predicate Alike(a: Abstract, b: Abstract) {
    a.rows == b.rows && forall r :: Effective(a, r) == Effective(b, r)
  }

  /** The document type is part of a run's id: a run whose machine exists has a known one, and every call names it. */
  ghost predicate Typed(a: Abstract, types: string -> bool) {
    forall r :: Effective(a, r).Some? ==> types(r)
  }

  ghost predicate CallTyped(call: Call, types: string -> bool) {
    !call.Crash? ==> call.known == types(call.runId)
  }

  ghost predicate CallsTyped(calls: seq<Call>, types: string -> bool) {
    forall call :: call in calls ==> CallTyped(call, types)
  }

  lemma AlikeLookup(a: Abstract, b: Abstract, runId: string, context: Context, types: string -> bool)
    requires Alike(a, b) && Typed(a, types)
    ensures var (a', r) := GetOrCreate(a, runId, types(runId), context);
            var (b', q) := GetOrCreate(b, runId, types(runId), context);
            && r == q && Alike(a', b') && Typed(a', types)
            && (r.Got? ==>
                && runId in a'.cache && a'.cache[runId] == r.machine
                && runId in b'.cache && b'.cache[runId] == r.machine)
  {
    assert Effective(a, runId) == Effective(b, runId);
    var a', b' := GetOrCreate(a, runId, types(runId), context).0, GetOrCreate(b, runId, types(runId), context).0;
    forall r ensures Effective(a', r) == Effective(b', r) && (Effective(a', r).Some? ==> types(r)) {
      assert Effective(a, r) == Effective(b, r);
    }
  }

  lemma AlikePut(a: Abstract, b: Abstract, runId: string, m: Snapshot, types: string -> bool)
    requires Alike(a, b) && Typed(a, types) && types(runId)
    ensures Alike(Abstract(a.cache[runId := m], a.rows[runId := m]), Abstract(b.cache[runId := m], b.rows[runId := m]))
    ensures Typed(Abstract(a.cache[runId := m], a.rows[runId := m]), types)
  {
    var a', b' := Abstract(a.cache[runId := m], a.rows[runId := m]), Abstract(b.cache[runId := m], b.rows[runId := m]);
    forall r ensures Effective(a', r) == Effective(b', r) && (Effective(a', r).Some? ==> types(r)) {
      assert Effective(a, r) == Effective(b, r);
    }
  }

  lemma AlikeCall(a: Abstract, b: Abstract, call: Call, types: string -> bool)
    requires Alike(a, b) && Typed(a, types) && CallTyped(call, types)
    ensures Perform(a, call).1 == Perform(b, call).1
    ensures Alike(Perform(a, call).0, Perform(b, call).0) && Typed(Perform(a, call).0, types)
  {
    match call
    case Lookup(runId, _, context) => AlikeLookup(a, b, runId, context, types);
    case Deliver(runId, _, event, payload, context) =>
      AlikeLookup(a, b, runId, context, types);
      var (a', reply) := GetOrCreate(a, runId, types(runId), context);
      if reply.Got? {
        assert Effective(a', runId).Some?;
        AlikePut(a', GetOrCreate(b, runId, types(runId), context).0, runId, Next(reply.machine, event, payload).1,
                 types);
      }
    case Crash =>
      assert Restart(a) == Restart(b);
      forall r | Effective(Restart(a), r).Some? ensures types(r) {
        assert Effective(a, r).Some?;
      }
  }

  lemma {:induction false} AlikeReplies(a: Abstract, b: Abstract, calls: seq<Call>, types: string -> bool)
    requires Alike(a, b) && Typed(a, types) && CallsTyped(calls, types)
    ensures Replies(a, calls) == Replies(b, calls)
    decreases |calls|
  {
    if calls != [] {
      AlikeCall(a, b, calls[0], types);
      AlikeReplies(Perform(a, calls[0]).0, Perform(b, calls[0]).0, calls[1..], types);
    }
  }

  /** A restart changes no answer of any sequence of calls if and only if every cached machine is stored as it is. */
  lemma RestartInvisibleIff(a: Abstract, types: string -> bool)
    requires Typed(a, types)
    ensures Coherent(a)
            <==> forall calls :: CallsTyped(calls, types) ==> Replies(Restart(a), calls) == Replies(a, calls)
  {
    if Coherent(a) {
      forall calls | CallsTyped(calls, types) ensures Replies(Restart(a), calls) == Replies(a, calls) {
        AlikeReplies(a, Restart(a), calls, types);
      }
    } else {
      var r :| r in a.cache && (r !in a.rows || a.rows[r] != a.cache[r]);
      assert Effective(a, r).Some?;
      RestartNoticed(a, r);
      assert CallsTyped([Lookup(r, types(r), map[])], types);
    }
  }

  lemma RestartNoticed(a: Abstract, r: string)
    requires r in a.cache && (r !in a.rows || a.rows[r] != a.cache[r])
    ensures Replies(Restart(a), [Lookup(r, true, map[])]) != Replies(a, [Lookup(r, true, map[])])
  {
    var call := Lookup(r, true, map[]);
    EmptyUpdate(a.cache[r]);
    if r in a.rows {
      EmptyUpdate(a.rows[r]);
    }
    OneReply(a, call);
    OneReply(Restart(a), call);
    assert Perform(a, call).1[0] != Perform(Restart(a), call).1[0];
  }

  lemma OneReply(a: Abstract, call: Call)
    ensures Replies(a, [call]) == Perform(a, call).1
  {
    assert [call][1..] == [] && Replies(Perform(a, call).0, []) == [];
  }

  /** The map of machines a bridge stands for. */
  ghost predicate StandsFor(a: Abstract, ms: map<string, Snapshot>) {
    forall r :: Effective(a, r) == if r in ms then Some(ms[r]) else None
  }

  /** Whenever the process restarts, every cached machine is stored as it is. */
  ghost predicate CoherentAtCrashes(a: Abstract, calls: seq<Call>)
    decreases |calls|
  {
    calls == [] || ((calls[0].Crash? ==> Coherent(a)) && CoherentAtCrashes(Perform(a, calls[0]).0, calls[1..]))
  }

  lemma StandsAfterRestart(a: Abstract, ms: map<string, Snapshot>)
    requires StandsFor(a, ms) && Coherent(a)
    ensures StandsFor(Restart(a), ms)
  {
    forall r ensures Effective(Restart(a), r) == if r in ms then Some(ms[r]) else None {
      assert Effective(a, r) == if r in ms then Some(ms[r]) else None;
    }
  }

  lemma StandsAfterLookup(a: Abstract, ms: map<string, Snapshot>, runId: string, known: bool, context: Context)
    requires StandsFor(a, ms) && (Effective(a, runId).Some? ==> known)
    ensures var (b, reply) := GetOrCreate(a, runId, known, context);
            var (ns, plain) := PlainGetOrCreate(ms, runId, known, context);
            reply == plain && StandsFor(b, ns) && (reply.Got? ==> runId in ns && ns[runId] == reply.machine)
  {
    var b, ns := GetOrCreate(a, runId, known, context).0, PlainGetOrCreate(ms, runId, known, context).0;
    NewContext(context);
    assert Effective(a, runId) == if runId in ms then Some(ms[runId]) else None;
    forall r ensures Effective(b, r) == if r in ns then Some(ns[r]) else None {
      assert Effective(a, r) == if r in ms then Some(ms[r]) else None;
    }
  }

  lemma StandsAfterPut(a: Abstract, ms: map<string, Snapshot>, runId: string, m: Snapshot)
    requires StandsFor(a, ms)
    ensures StandsFor(Abstract(a.cache[runId := m], a.rows[runId := m]), ms[runId := m])
    ensures runId in ms && ms[runId] == m ==> StandsFor(a, ms[runId := m])
  {
    var b := Abstract(a.cache[runId := m], a.rows[runId := m]);
    forall r ensures Effective(b, r) == if r in ms[runId := m] then Some(ms[runId := m][r]) else None {
      assert Effective(a, r) == if r in ms then Some(ms[r]) else None;
    }
    if runId in ms && ms[runId] == m {
      assert ms[runId := m] == ms;
    }
  }

  lemma StandsAfterCall(a: Abstract, ms: map<string, Snapshot>, call: Call, types: string -> bool)
    requires StandsFor(a, ms) && Typed(a, types) && CallTyped(call, types) && !call.Crash?
    ensures Perform(a, call).1 == PerformPlain(ms, call).1
    ensures StandsFor(Perform(a, call).0, PerformPlain(ms, call).0)
  {
    StandsAfterLookup(a, ms, call.runId, call.known, call.context);
    if call.Deliver? {
      var (b, reply) := GetOrCreate(a, call.runId, call.known, call.context);
      if reply.Got? {
        var next := Next(reply.machine, call.event, call.payload).1;
        StandsAfterPut(b, PlainGetOrCreate(ms, call.runId, call.known, call.context).0, call.runId, next);
      }
    }
  }

  lemma StandsAfter(a: Abstract, ms: map<string, Snapshot>, call: Call, types: string -> bool)
    requires StandsFor(a, ms) && Typed(a, types) && CallTyped(call, types) && (call.Crash? ==> Coherent(a))
    ensures Perform(a, call).1 == PerformPlain(ms, call).1
    ensures StandsFor(Perform(a, call).0, PerformPlain(ms, call).0) && Typed(Perform(a, call).0, types)
  {
    AlikeCall(a, a, call, types);
    if call.Crash? {
      StandsAfterRestart(a, ms);
    } else {
      StandsAfterCall(a, ms, call, types);
    }
  }

  /** Whatever contexts calls bring and whenever they bring them, the bridge answers as one that never restarts, as
      long as each restart finds every cached machine stored. */
  lemma {:induction false} BridgeStandsForMap(a: Abstract, ms: map<string, Snapshot>, calls: seq<Call>,
                                              types: string -> bool)
    requires StandsFor(a, ms) && Typed(a, types) && CallsTyped(calls, types) && CoherentAtCrashes(a, calls)
    ensures Replies(a, calls) == PlainReplies(ms, calls)
    decreases |calls|
  {
    if calls != [] {
      StandsAfter(a, ms, calls[0], types);
      BridgeStandsForMap(Perform(a, calls[0]).0, PerformPlain(ms, calls[0]).0, calls[1..], types);
    }
  }

  /** The condition is needed: a context brought to a machine that exists already is lost by a crash if it says
      anything new. */
  lemma LateContextLost(a: Abstract, runId: string, context: Context)
    requires Coherent(a) && runId in a.rows && !Redundant(a.rows[runId], context)
    ensures Replies(a, [Lookup(runId, true, context), Crash, Lookup(runId, true, map[])])
         != PlainReplies(a.rows, [Lookup(runId, true, context), Crash, Lookup(runId, true, map[])])
  {
    var first, second := Lookup(runId, true, context), Lookup(runId, true, map[]);
    var m := a.rows[runId];
    EmptyUpdate(m);
    EmptyUpdate(Updated(m, context));
    var b, ms := Perform(a, first).0, a.rows[runId := Updated(m, context)];
    assert b.rows == a.rows;
    ThreeReplies(a, first, second);
    assert Perform(Restart(b), second).1 == [Got(m)];
    assert PerformPlain(ms, second).1 == [Got(Updated(m, context))];
    assert [Got(Updated(m, context))] + [Got(m)] != [Got(Updated(m, context))] + [Got(Updated(m, context))] by {
      assert ([Got(Updated(m, context))] + [Got(m)])[1] != ([Got(Updated(m, context))] + [Got(Updated(m, context))])[1];
    }
  }

  lemma ThreeReplies(a: Abstract, first: Call, second: Call)
    ensures Replies(a, [first, Crash, second]) == Perform(a, first).1 + Perform(Restart(Perform(a, first).0), second).1
    ensures PlainReplies(a.rows, [first, Crash, second])
         == PerformPlain(a.rows, first).1 + PerformPlain(PerformPlain(a.rows, first).0, second).1
  {
    assert [first, Crash, second][1..] == [Crash, second] && [Crash, second][1..] == [second] && [second][1..] == [];
    var b := Perform(a, first).0;
    assert Replies(Restart(b), [second]) == Perform(Restart(b), second).1 + [];
    assert Replies(b, [Crash, second]) == [] + Replies(Restart(b), [second]);
    var ms := PerformPlain(a.rows, first).0;
    assert PlainReplies(ms, [second]) == PerformPlain(ms, second).1 + [];
    assert PlainReplies(ms, [Crash, second]) == [] + PlainReplies(ms, [second]);
  }

  // ----- the objects -----

  /** The table of snapshots. */
  class Store {
    var rows: map<string, Snapshot>

    constructor ()
      ensures rows == map[]
    {
      rows := map[];
    }

    /** Updates the row of the run or inserts one. */
    method Save(runId: string, snapshot: Snapshot)
      modifies this
      ensures rows == old(rows)[runId := snapshot]
    {
      rows := rows[runId := snapshot];
    }

    method Load(runId: string) returns (r: Option<Snapshot>)
      ensures r == if runId in rows then Some(rows[runId]) else None
    {
      if runId in rows {
        r := Some(rows[runId]);
      } else {
        r := None;
      }
    }

    method Exists(runId: string) returns (b: bool)
      ensures b == (runId in rows)
    {
      var row := Load(runId);
      b := row.Some?;
    }
  }

  /** A running machine.  Its actions write the keys of its context in place. */
  class Machine {
    const runId: string
    const store: Store
    var state: State
    var context: Context

    ghost function View(): Snapshot
      reads this
    {
      Snapshot(state, context)
    }

    constructor (runId: string, store: Store, context: Context)
      ensures this.runId == runId && this.store == store && View() == Snapshot(Received, context)
    {
      this.runId, this.store := runId, store;
      state, this.context := Received, context;
    }

    /** Resumes from the stored snapshot, or stays at the start. */
    method LoadOrStart()
      modifies this
      ensures View() == if runId in store.rows then store.rows[runId] else old(View())
    {
      var row := store.Load(runId);
      if row.Some? {
        state, context := row.value.state, row.value.context;
      }
    }

    method UpdateContext(more: Context)
      modifies this`context
      ensures View() == Updated(old(View()), more)
    {
      context := context + more;
    }

    method RecordExtracted(payload: Context)
      modifies this`context
      ensures context == Extracted(old(context), payload)
    {
      for i := 0 to |FOLDED|
        invariant context == Fold(old(context), payload, FOLDED[..i])
      {
        assert FOLDED[..i + 1][..i] == FOLDED[..i];
        if FOLDED[i] in payload {
          context := context[FOLDED[i] := payload[FOLDED[i]]];
        }
      }
      assert FOLDED[..|FOLDED|] == FOLDED;
      var missing := if "missing_fields" in payload then payload["missing_fields"] else Items([]);
      context := context["missing_fields" := missing];
    }

    method RecordValid()
      modifies this`context
      ensures context == Acted(ContractMachine.Action.RecordValid, old(context), map[])
    {
      context := context["verdict" := Text("pass")];
      context := context["reasons" := Items([])];
    }

    method RecordInvalid(payload: Context)
      modifies this`context
      ensures context == Acted(ContractMachine.Action.RecordInvalid, old(context), payload)
    {
      var reasons := InvalidReasons(context, payload);
      context := context["verdict" := Text("fail")];
      context := context["reasons" := Items(reasons)];
    }

    method RecordError(payload: Context)
      modifies this`context
      ensures context == Acted(ContractMachine.Action.RecordError, old(context), payload)
    {
      context := context["verdict" := Text("error")];
      context := context["reasons" := Items([ErrorReason(payload)])];
    }

    method Act(action: Action, payload: Context)
      modifies this`context
      ensures context == Acted(action, old(context), payload)
    {
      match action
      case NoAction =>
      case RecordExtracted => RecordExtracted(payload);
      case RecordValid => RecordValid();
      case RecordInvalid => RecordInvalid(payload);
      case RecordError => RecordError(payload);
    }

    /** Takes the first matching row, applies its action and stores the new snapshot. */
    method Send(event: Event, payload: Context) returns (taken: bool)
      modifies this, store
      ensures (taken, View()) == Next(old(View()), event, payload)
      ensures store.rows == if taken then old(store.rows)[runId := View()] else old(store.rows)
    {
      var row := FirstRow(ROWS, Snapshot(state, context), event);
      if row.None? {
        return false;
      }
      Act(row.value.action, payload);
      state := row.value.target;
      store.Save(runId, Snapshot(state, context));
      taken := true;
    }
  }

  /** The registry of machines, one for each run. */
  class OrcaBridge {
    const store: Store
    var machines: map<string, Machine>

    ghost predicate Valid()
      reads this
    {
      forall r :: r in machines ==> machines[r].runId == r && machines[r].store == store
    }

    ghost function View(): Abstract
      reads this, machines.Values, store
    {
      Abstract(map r | r in machines :: machines[r].View(), store.rows)
    }

    constructor (store: Store)
      ensures Valid() && this.store == store && View() == Abstract(map[], store.rows)
    {
      this.store := store;
      machines := map[];
    }

    /** The cached machine, with the context added to what it knows. */
    method Cached(runId: string, context: Context) returns (machine: Machine)
      requires Valid() && runId in machines
      modifies machines[runId]
      ensures machine == machines[runId]
      ensures View() == GetOrCreate(old(View()), runId, true, context).0
      ensures machine.View() == Updated(old(machine.View()), context)
    {
      ghost var before := View();
      machine := machines[runId];
      EmptyUpdate(machine.View());
      if context != map[] {
        machine.UpdateContext(context);
      }
      assert View().cache == before.cache[runId := machine.View()];
    }

    /** A machine resumed from its snapshot, or a new one whose first snapshot is stored. */
    method Start(runId: string, context: Context, existed: bool) returns (machine: Machine)
      requires existed == (runId in store.rows)
      modifies store
      ensures fresh(machine) && machine.runId == runId && machine.store == store
      ensures machine.View()
           == Updated(if existed then old(store.rows)[runId] else Snapshot(Received, context), context)
      ensures store.rows == if existed then old(store.rows) else old(store.rows)[runId := machine.View()]
    {
      machine := new Machine(runId, store, context);
      machine.LoadOrStart();
      EmptyUpdate(machine.View());
      if context != map[] {
        machine.UpdateContext(context);
      }
      if !existed {
        store.Save(runId, Snapshot(machine.state, machine.context));
      }
    }

    /** Enters a machine in the cache. */
    method Register(machine: Machine)
      requires Valid() && machine.runId !in machines && machine.store == store
      modifies this`machines
      ensures Valid() && machines == old(machines)[machine.runId := machine]
      ensures View() == old(View()).(cache := old(View()).cache[machine.runId := machine.View()])
    {
      ghost var before := View();
      machines := machines[machine.runId := machine];
      assert View().cache == before.cache[machine.runId := machine.View()];
    }

    /** The machine of a run, or the error that there is none. */
    method GetOrCreateMachine(runId: string, known: bool, context: Context)
        returns (machine: Machine?, ghost reply: Reply)
      requires Valid()
      modifies this, machines.Values, store
      ensures Valid() && fresh(machines.Values - old(machines.Values))
      ensures (View(), reply) == GetOrCreate(old(View()), runId, known, context)
      ensures machine != null <==> reply.Got?
      ensures machine != null ==> runId in machines && machines[runId] == machine && reply.machine == machine.View()
    {
      if runId in machines {
        machine := Cached(runId, context);
        reply := Got(machine.View());
        return;
      }
      ghost var before := View();
      var existed := store.Exists(runId);
      if context == map[] && !existed {
        return null, ContextRequired;
      }
      if !known {
        return null, UnknownDocType;
      }
      machine := Start(runId, context, existed);
      assert View().cache == before.cache;
      Register(machine);
      reply := Got(machine.View());
    }

    /** Delivers an event to a cached machine. */
    method DeliverTo(runId: string, event: Event, payload: Context) returns (taken: bool)
      requires Valid() && runId in machines
      modifies machines[runId], store
      ensures (taken, machines[runId].View()) == Next(old(machines[runId].View()), event, payload)
      ensures View() == if taken then Abstract(old(View()).cache[runId := machines[runId].View()],
                                               old(View()).rows[runId := machines[runId].View()])
                        else old(View())
    {
      ghost var before := View();
      taken := machines[runId].Send(event, payload);
      ghost var after := machines[runId].View();
      assert View().cache == before.cache[runId := after];
      assert !taken ==> before.cache[runId := after] == before.cache;
    }

    /** Delivers an event to the machine of a run. */
    method SendEvent(runId: string, known: bool, event: Event, payload: Context, context: Context)
      returns (machine: Machine?, taken: bool, ghost reply: Reply)
      requires Valid()
      modifies this, machines.Values, store
      ensures Valid() && fresh(machines.Values - old(machines.Values))
      ensures (View(), reply) == Send(old(View()), runId, known, event, payload, context)
      ensures machine != null <==> reply.Sent?
      ensures machine != null ==>
              runId in machines && machines[runId] == machine && reply == Sent(taken, machine.View())
    {
      taken := false;
      machine, reply := GetOrCreateMachine(runId, known, context);
      if machine != null {
        taken := DeliverTo(runId, event, payload);
        reply := Sent(taken, machine.View());
      }
    }

    /** Forgets all machines, as a restart of the process does. */
    method Shutdown()
      requires Valid()
      modifies this
      ensures Valid() && View() == Restart(old(View()))
    {
      machines := map[];
    }
  }

  lemma EmptyUpdate(m: Snapshot)
    ensures Updated(m, map[]) == m
  {
  }
}
