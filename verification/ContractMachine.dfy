/** The contract validation machine: its transition table, its guards, and the actions that record the facts of
    a verdict in the machine's context. */
module ContractMachine {
  import opened Options

  /** What the context and the payloads hold. */
  datatype Value = Null | Num(n: int) | Text(s: string) | Items(vs: seq<Option<string>>)
  type Context = map<string, Value>

  datatype State = Received | Validating | Valid | Invalid | Errored
  datatype Event = EXTRACTED | EVALUATE | EXTRACTION_FAILED | TIMEOUT
  datatype Guard = NoGuard | AllRequiredPresent | MissingRequired
  datatype Action = NoAction | RecordExtracted | RecordValid | RecordInvalid | RecordError
  datatype Row = Row(source: State, event: Event, guard: Guard, target: State, action: Action)

  const ROWS: seq<Row> := [
    Row(Received, EXTRACTED, NoGuard, Validating, RecordExtracted),
    Row(Received, EVALUATE, NoGuard, Received, NoAction),
    Row(Received, EXTRACTION_FAILED, NoGuard, Errored, RecordError),
    Row(Received, TIMEOUT, NoGuard, Errored, RecordError),
    Row(Validating, EXTRACTED, NoGuard, Validating, NoAction),
    Row(Validating, EVALUATE, AllRequiredPresent, Valid, RecordValid),
    Row(Validating, EVALUATE, MissingRequired, Invalid, RecordInvalid),
    Row(Validating, EXTRACTION_FAILED, NoGuard, Errored, RecordError),
    Row(Validating, TIMEOUT, NoGuard, Errored, RecordError)]

  /** The count the guards look at; the table of context fields gives it the default zero. */
  function MissingCount(context: Context): Option<int> {
    if "missing_count" !in context then Some(0)
    else match context["missing_count"]
      case Num(n) => Some(n)
      case _ => None
  }

  predicate GuardHolds(guard: Guard, context: Context) {
    match guard
    case NoGuard => true
    case AllRequiredPresent => MissingCount(context) == Some(0)
    case MissingRequired => MissingCount(context).Some? && MissingCount(context).value > 0
  }

  // ----- actions -----

  const FOLDED := ["missing_count", "has_parties", "has_effective_date", "has_term", "has_signatures",
    "has_governing_law"]

  function Fold(context: Context, payload: Context, keys: seq<string>): Context {
    if keys == [] then context
    else
      var before := Fold(context, payload, keys[..|keys| - 1]);
      var key := keys[|keys| - 1];
      if key in payload then before[key := payload[key]] else before
  }

  function Extracted(context: Context, payload: Context): Context {
    var missing := if "missing_fields" in payload then payload["missing_fields"] else Items([]);
    Fold(context, payload, FOLDED)["missing_fields" := missing]
  }

  function Truthy(v: Value): bool {
    match v
    case Null => false
    case Num(n) => n != 0
    case Text(s) => s != ""
    case Items(vs) => vs != []
  }

  /** The value under a key if it is there and not empty or zero. */
  function Filled(context: Context, key: string): Option<Value> {
    if key in context && Truthy(context[key]) then Some(context[key]) else None
  }

  function MissingItems(context: Context, payload: Context): seq<Option<string>> {
    match (Filled(context, "missing_fields"), Filled(payload, "missing_fields"))
    case (Some(Items(vs)), _) => vs
    case (None, Some(Items(vs))) => vs
    case _ => []
  }

  const MISSING := "missing required field: "

  function MissingReason(item: Option<string>): Option<string> {
    Some(MISSING + match item case Some(name) => name case None => "None")
  }

  function MissingReasons(items: seq<Option<string>>): (r: seq<Option<string>>)
    ensures |r| == |items|
    ensures forall i :: 0 <= i < |r| ==> r[i] == MissingReason(items[i])
  {
    if items == [] then [] else [MissingReason(items[0])] + MissingReasons(items[1..])
  }

  function InvalidReasons(context: Context, payload: Context): seq<Option<string>> {
    var items := MissingItems(context, payload);
    if items == [] then [Some("required-field check failed")] else MissingReasons(items)
  }

  function ErrorReason(payload: Context): Option<string> {
    if "error" !in payload then Some("extraction or processing failed")
    else match payload["error"]
      case Text(s) => Some(s)
      case _ => None
  }

  /** The context after an action. */
  function Acted(action: Action, context: Context, payload: Context): Context {
    match action
    case NoAction => context
    case RecordExtracted => Extracted(context, payload)
    case RecordValid => context["verdict" := Text("pass")]["reasons" := Items([])]
    case RecordInvalid => context["verdict" := Text("fail")]["reasons" := Items(InvalidReasons(context, payload))]
    case RecordError => context["verdict" := Text("error")]["reasons" := Items([ErrorReason(payload)])]
  }

  // ----- steps -----

  datatype Snapshot = Snapshot(state: State, context: Context)

  function FirstRow(rows: seq<Row>, m: Snapshot, event: Event): Option<Row> {
    if rows == [] then None
    else if rows[0].source == m.state && rows[0].event == event && GuardHolds(rows[0].guard, m.context)
    then Some(rows[0])
    else FirstRow(rows[1..], m, event)
  }

  /** The first row of the table that matches the state, the event and its guard is taken; if there is none the
      machine stays as it is. */
  function Next(m: Snapshot, event: Event, payload: Context): (r: (bool, Snapshot)) {
    match FirstRow(ROWS, m, event)
    case Some(row) => (true, Snapshot(row.target, Acted(row.action, m.context, payload)))
    case None => (false, m)
  }

  function After(m: Snapshot, events: seq<(Event, Context)>): Snapshot
    decreases |events|
  {
    if events == [] then m
    else
      var n := |events| - 1;
      Next(After(m, events[..n]), events[n].0, events[n].1).1
  }

  predicate IsFinal(state: State) {
    state == Valid || state == Invalid || state == Errored
  }

  /** The table read out: which row an event takes in which state. */
  function Chosen(m: Snapshot, event: Event): Option<(State, Action)> {
    match (m.state, event)
    case (Received, EXTRACTED) => Some((Validating, RecordExtracted))
    case (Received, EVALUATE) => Some((Received, NoAction))
    case (Received, _) => Some((Errored, RecordError))
    case (Validating, EXTRACTED) => Some((Validating, NoAction))
    case (Validating, EVALUATE) =>
      (match MissingCount(m.context)
       case Some(n) =>
         if n == 0 then Some((Valid, RecordValid)) else if n > 0 then Some((Invalid, RecordInvalid)) else None
       case None => None)
    case (Validating, _) => Some((Errored, RecordError))
    case (_, _) => None
  }

  lemma {:induction false} FirstRowIs(rows: seq<Row>, m: Snapshot, event: Event, k: nat)
    requires k <= |rows|
    requires forall i :: 0 <= i < k ==>
             rows[i].source != m.state || rows[i].event != event || !GuardHolds(rows[i].guard, m.context)
    requires k < |rows| ==> rows[k].source == m.state && rows[k].event == event && GuardHolds(rows[k].guard, m.context)
    ensures FirstRow(rows, m, event) == if k < |rows| then Some(rows[k]) else None
  {
    if k > 0 {
      FirstRowIs(rows[1..], m, event, k - 1);
    }
  }

  lemma TableIs(m: Snapshot, event: Event)
    ensures match FirstRow(ROWS, m, event)
            case Some(row) => Chosen(m, event) == Some((row.target, row.action))
            case None => Chosen(m, event) == None
  {
    var k := match (m.state, event)
      case (Received, EXTRACTED) => 0
      case (Received, EVALUATE) => 1
      case (Received, EXTRACTION_FAILED) => 2
      case (Received, TIMEOUT) => 3
      case (Validating, EXTRACTED) => 4
      case (Validating, EVALUATE) =>
        if GuardHolds(AllRequiredPresent, m.context) then 5 else if GuardHolds(MissingRequired, m.context) then 6 else 9
      case (Validating, EXTRACTION_FAILED) => 7
      case (Validating, TIMEOUT) => 8
      case (_, _) => 9;
    FirstRowIs(ROWS, m, event, k);
  }

  /** What the count of missing fields decides: none, or no count at all, is valid, a positive one invalid, and on
      anything else the event is not taken. */
  lemma CountDecides(m: Snapshot, payload: Context)
    requires m.state == Validating
    ensures var (taken, r) := Next(m, EVALUATE, payload);
            && ("missing_count" !in m.context ==> taken && r.state == Valid)
            && (forall n :: "missing_count" in m.context && m.context["missing_count"] == Num(n) ==>
                if n == 0 then taken && r.state == Valid
                else if n > 0 then taken && r.state == Invalid
                else !taken && r == m)
            && ("missing_count" in m.context && !m.context["missing_count"].Num? ==> !taken && r == m)
  {
    TableIs(m, EVALUATE);
  }

  /** A machine found invalid names the missing fields its context lists, or those of the payload if it lists none, and
      gives one general reason if neither does. */
  lemma InvalidNames(m: Snapshot, payload: Context, names: seq<Option<string>>)
    requires m.state == Validating && MissingCount(m.context).Some? && MissingCount(m.context).value > 0
    ensures var r := Next(m, EVALUATE, payload).1;
            && r.state == Invalid && "verdict" in r.context && r.context["verdict"] == Text("fail")
            && "reasons" in r.context
            && (names != [] && Filled(m.context, "missing_fields") == Some(Items(names)) ==>
                r.context["reasons"] == Items(MissingReasons(names)))
            && (names != [] && Filled(m.context, "missing_fields") == None
                && Filled(payload, "missing_fields") == Some(Items(names)) ==>
                r.context["reasons"] == Items(MissingReasons(names)))
            && (Filled(m.context, "missing_fields") == None && Filled(payload, "missing_fields") == None ==>
                r.context["reasons"] == Items([Some("required-field check failed")]))
  {
    TableIs(m, EVALUATE);
  }

  /** A reason names its field, and a field without a name is called `None`. */
  lemma ReasonNames(name: string)
    ensures MissingReason(Some(name)) == Some("missing required field: " + name)
    ensures MissingReason(None) == Some("missing required field: None")
  {
    assert MISSING + "None" == "missing required field: None";
  }

  /** A timeout, or a failure that says nothing, ends the machine with the general error; a failure with a message or
      with a null one ends it with that. */
  lemma FailureErrs(m: Snapshot, event: Event, payload: Context)
    requires (m.state == Received || m.state == Validating) && (event == EXTRACTION_FAILED || event == TIMEOUT)
    ensures var r := Next(m, event, payload).1;
            && r.state == Errored && "verdict" in r.context && r.context["verdict"] == Text("error")
            && "reasons" in r.context
            && ("error" !in payload ==>
                r.context["reasons"] == Items([Some("extraction or processing failed")]))
            && (forall message :: "error" in payload && payload["error"] == Text(message) ==>
                r.context["reasons"] == Items([Some(message)]))
            && ("error" in payload && payload["error"] == Null ==> r.context["reasons"] == Items([None]))
  {
    TableIs(m, event);
  }

  /** Final states absorb every event. */
  lemma FinalAbsorbs(m: Snapshot, event: Event, payload: Context)
    requires IsFinal(m.state)
    ensures Next(m, event, payload) == (false, m)
  {
    TableIs(m, event);
  }

  /** The verdict in the context is that of the state, with its reasons, and there is none before the end. */
  predicate VerdictIsState(m: Snapshot) {
    match m.state
    case Received => "verdict" !in m.context
    case Validating => "verdict" !in m.context
    case Valid => "verdict" in m.context && m.context["verdict"] == Text("pass")
                  && "reasons" in m.context && m.context["reasons"] == Items([])
    case Invalid => "verdict" in m.context && m.context["verdict"] == Text("fail")
                    && "reasons" in m.context && m.context["reasons"].Items? && m.context["reasons"].vs != []
    case Errored => "verdict" in m.context && m.context["verdict"] == Text("error")
                    && "reasons" in m.context && m.context["reasons"].Items? && |m.context["reasons"].vs| == 1
  }

  lemma {:induction false} FoldKeeps(context: Context, payload: Context, keys: seq<string>, key: string)
    requires key !in keys
    ensures key in Fold(context, payload, keys) <==> key in context
    ensures key in context ==> Fold(context, payload, keys)[key] == context[key]
  {
    if keys != [] {
      assert keys[|keys| - 1] in keys;
      FoldKeeps(context, payload, keys[..|keys| - 1], key);
    }
  }

  lemma {:induction false} FoldIs(context: Context, payload: Context, keys: seq<string>, key: string)
    ensures key in Fold(context, payload, keys) <==> key in context || (key in keys && key in payload)
    ensures key in Fold(context, payload, keys) ==>
            Fold(context, payload, keys)[key] == if key in keys && key in payload then payload[key] else context[key]
  {
    if keys != [] {
      var n := |keys| - 1;
      FoldIs(context, payload, keys[..n], key);
      assert keys == keys[..n] + [keys[n]];
    }
  }

  /** The keys an action writes. */
  function Written(action: Action): set<string> {
    match action
    case NoAction => {}
    case RecordExtracted => {"missing_count", "has_parties", "has_effective_date", "has_term", "has_signatures",
                             "has_governing_law", "missing_fields"}
    case _ => {"verdict", "reasons"}
  }

  /** An action leaves every other key of the context as it is. */
  lemma ActedKeeps(action: Action, context: Context, payload: Context, key: string)
    requires key !in Written(action)
    ensures key in Acted(action, context, payload) <==> key in context
    ensures key in context ==> Acted(action, context, payload)[key] == context[key]
  {
    if action == RecordExtracted {
      FoldKeeps(context, payload, FOLDED, key);
    }
  }

  /** The folded keys take the payload's values where it has any; the missing fields are always replaced. */
  lemma ExtractedIs(context: Context, payload: Context, key: string)
    requires key in FOLDED
    ensures var after := Extracted(context, payload);
            && (key in after <==> key in payload || key in context)
            && (key in after ==> after[key] == if key in payload then payload[key] else context[key])
            && "missing_fields" in after
            && after["missing_fields"] == if "missing_fields" in payload then payload["missing_fields"] else Items([])
  {
    FoldIs(context, payload, FOLDED, key);
    FoldedAreOthers(key);
  }

  lemma FoldedAreOthers(key: string)
    requires key in FOLDED
    ensures key != "missing_fields"
  {
    var name := "missing_fields";
    assert FOLDED[0][8] != name[8] && forall i :: 1 <= i < |FOLDED| ==> FOLDED[i][0] != name[0];
  }

  /** What the machine was created with stays in its context through every sequence of events. */
  lemma {:induction false} AfterKeeps(m: Snapshot, events: seq<(Event, Context)>, key: string)
    requires forall action :: key !in Written(action)
    ensures key in After(m, events).context <==> key in m.context
    ensures key in m.context ==> After(m, events).context[key] == m.context[key]
    decreases |events|
  {
    if events != [] {
      var n := |events| - 1;
      var before := After(m, events[..n]);
      AfterKeeps(m, events[..n], key);
      match FirstRow(ROWS, before, events[n].0)
      case Some(row) => ActedKeeps(row.action, before.context, events[n].1, key);
      case None =>
    }
  }

  lemma ExtractedKeepsVerdict(context: Context, payload: Context)
    ensures "verdict" in Extracted(context, payload) <==> "verdict" in context
  {
    assert "verdict"[0] != "missing_count"[0] && "verdict"[0] != "has_term"[0] && "verdict"[0] != "missing_fields"[0];
    assert forall i :: 0 <= i < |FOLDED| ==> FOLDED[i][0] != 'v';
    assert "verdict" !in FOLDED;
    FoldKeeps(context, payload, FOLDED, "verdict");
  }

  lemma NextKeepsVerdict(m: Snapshot, event: Event, payload: Context)
    requires VerdictIsState(m)
    ensures VerdictIsState(Next(m, event, payload).1)
  {
    TableIs(m, event);
    ExtractedKeepsVerdict(m.context, payload);
    assert "verdict" != "reasons";
  }

  /** Over every sequence of events with any payloads, from any start without a verdict: the machine is in valid,
      invalid or error exactly when its verdict is pass, fail or error, and then stays there for ever. */
  lemma {:induction false} VerdictAlwaysIsState(m: Snapshot, events: seq<(Event, Context)>)
    requires m.state == Received && "verdict" !in m.context
    ensures VerdictIsState(After(m, events))
    ensures forall k :: 0 <= k <= |events| && IsFinal(After(m, events[..k]).state) ==>
            After(m, events) == After(m, events[..k])
    decreases |events|
  {
    if events != [] {
      var n := |events| - 1;
      VerdictAlwaysIsState(m, events[..n]);
      NextKeepsVerdict(After(m, events[..n]), events[n].0, events[n].1);
      forall k | 0 <= k <= |events| && IsFinal(After(m, events[..k]).state)
        ensures After(m, events) == After(m, events[..k]) {
        if k <= n {
          assert events[..n][..k] == events[..k];
          FinalAbsorbs(After(m, events[..n]), events[n].0, events[n].1);
        } else {
          assert events[..k] == events;
        }
      }
    }
  }
}
