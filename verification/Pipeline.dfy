/** One validation: read the document, find its fields, drive the run's machine through the bridge and read the
    verdict off it. */
module Pipeline {
  import opened Options
  import opened Text
  import opened ContractMachine
  import opened Bridge
  import opened Extraction

  // ----- what the run meets outside the model -----

  /** A call into other parts either answers or raises an exception with a message. */
  datatype Outcome<+T> = Returned(value: T) | Raised(message: string)

  datatype Ocr = Ocr(text: string, error: Option<string>)

  /** The parsed document, whether a language model is configured, its answer (which a spent budget or a failed call
      turns into an exception), and whether the configured extractor exists. */
  datatype Case = Case(parsed: Outcome<Ocr>, llmEnabled: bool, answer: Outcome<Answer>, extractor: Outcome<()>,
                       find: Detector)

  predicate Readable(ocr: Ocr) {
    ocr.error.None? && Strip(ocr.text) != ""
  }

  // ----- finding the fields -----

  datatype Findings =
    | Broken(message: string, text: string)
    | Unreadable(error: Option<string>)
    | Facts(fields: Fields, flags: Context, documentType: string, text: string)

  /** The document type an answer gives, cut to its column. */
  function TypeOf(answer: Answer): string {
    match answer
    case BadJson => "document"
    case Answer(documentType, _) =>
      var name := if documentType == "" then "document" else documentType;
      if |name| > 128 then name[..128] else name
  }

  function AnswerFields(answer: Answer): Fields {
    match answer
    case BadJson => []
    case Answer(_, items) => Folded(items)
  }

  function AnsweredFields(answer: Answer, find: Detector, text: string): Fields {
    if IsContractLike(TypeOf(answer)) then Merged(AnswerFields(answer), Detected(CONTRACT_REQUIRED, find, text))
    else AnswerFields(answer)
  }

  /** The numeric flags the deterministic extractor adds for each of its fields. */
  function Flags(fields: Fields): Context {
    if fields == [] then map[]
    else
      var field := fields[|fields| - 1];
      Flags(fields[..|fields| - 1])["has_" + field.0 := Num(if field.1 then 1 else 0)]
  }

  function Find(c: Case): Findings {
    match c.parsed
    case Raised(message) => Broken(message, "")
    case Returned(ocr) =>
      if !Readable(ocr) then Unreadable(ocr.error)
      else if c.llmEnabled then
        match c.answer
        case Raised(message) => Broken(message, ocr.text)
        case Returned(answer) => Facts(AnsweredFields(answer, c.find, ocr.text), map[], TypeOf(answer), ocr.text)
      else
        match c.extractor
        case Raised(message) => Broken(message, ocr.text)
        case Returned(_) =>
          var fields := Detected(CONTRACT_REQUIRED, c.find, ocr.text);
          Facts(fields, Flags(fields), "contract", ocr.text)
  }

  /** The fields of a readable document: the model's, completed for contracts, or the extractor's. */
  method FindFields(c: Case) returns (findings: Findings)
    ensures findings == Find(c)
  {
    if c.parsed.Raised? {
      return Broken(c.parsed.message, "");
    }
    var ocr := c.parsed.value;
    if !Readable(ocr) {
      return Unreadable(ocr.error);
    }
    if c.llmEnabled {
      if c.answer.Raised? {
        return Broken(c.answer.message, ocr.text);
      }
      var fields: Fields := [];
      if c.answer.value.Answer? {
        fields := FoldItems(c.answer.value.items);
      }
      var documentType := TypeOf(c.answer.value);
      if IsContractLike(documentType) {
        fields := MergeCoreFields(fields, c.find, ocr.text);
      }
      findings := Facts(fields, map[], documentType, ocr.text);
    } else {
      if c.extractor.Raised? {
        return Broken(c.extractor.message, ocr.text);
      }
      var fields := Detected(CONTRACT_REQUIRED, c.find, ocr.text);
      findings := Facts(fields, Flags(fields), "contract", ocr.text);
    }
  }

  // ----- driving the machine -----

  function Named(names: seq<string>): (r: seq<Option<string>>)
    ensures |r| == |names| && forall i :: 0 <= i < |r| ==> r[i] == Some(names[i])
  {
    seq(|names|, i requires 0 <= i < |names| => Some(names[i]))
  }

  function Payload(fields: Fields, flags: Context): Context {
    flags["missing_count" := Num(|Missing(fields)|)]["missing_fields" := Items(Named(Missing(fields)))]
  }

  function ErrorPayload(error: Option<string>): Context {
    map["error" := match error case Some(message) => Text(message) case None => Null]
  }

  /** Where the events leave a machine that starts with the given context. */
  function Ends(findings: Findings, context: Context): Snapshot {
    var start := Snapshot(Received, context);
    match findings
    case Broken(_, _) => start
    case Unreadable(error) => Next(start, EXTRACTION_FAILED, ErrorPayload(error)).1
    case Facts(fields, flags, _, _) => Next(Next(start, EXTRACTED, Payload(fields, flags)).1, EVALUATE, map[]).1
  }

  // ----- reading the verdict -----

  datatype Report = Report(verdict: Value, finalState: string, reasons: Value, fields: Fields, documentType: string,
                           text: string)

  function StateName(state: State): string {
    match state
    case Received => "received"
    case Validating => "validating"
    case Valid => "valid"
    case Invalid => "invalid"
    case Errored => "error"
  }

  function VerdictOf(m: Snapshot): Value {
    if "verdict" in m.context && Truthy(m.context["verdict"]) then m.context["verdict"]
    else if m.state == Errored then Text("error") else Text("fail")
  }

  function ReasonsOf(m: Snapshot): Value {
    if "reasons" in m.context then m.context["reasons"] else Items([])
  }

  /** What is stored for the run: what the machine says, or after an exception an error and its message. */
  function Reported(findings: Findings, context: Context): Report {
    var m := Ends(findings, context);
    match findings
    case Broken(message, text) => Report(Text("error"), "error", Items([Some(message)]), [], "contract", text)
    case Unreadable(_) => Report(VerdictOf(m), StateName(m.state), ReasonsOf(m), [], "contract", "")
    case Facts(fields, _, documentType, text) =>
      Report(VerdictOf(m), StateName(m.state), ReasonsOf(m), fields, documentType, text)
  }

  function Creation(documentId: string, owner: string): Context {
    map["document_id" := Text(documentId), "owner" := Text(owner), "tenant_id" := Text(owner)]
  }

  /** A store and a cache with the run's machine in both. */
  ghost function With(a: Abstract, runId: string, m: Snapshot): Abstract {
    Abstract(a.cache[runId := m], a.rows[runId := m])
  }

  lemma CreateWith(a: Abstract, runId: string, context: Context)
    requires runId !in a.cache && runId !in a.rows && context != map[]
    ensures GetOrCreate(a, runId, true, context)
         == (With(a, runId, Snapshot(Received, context)), Got(Snapshot(Received, context)))
  {
    NewContext(context);
  }

  lemma GotAgain(a: Abstract, runId: string, m: Snapshot)
    ensures GetOrCreate(With(a, runId, m), runId, true, map[]) == (With(a, runId, m), Got(m))
  {
    var b := With(a, runId, m);
    EmptyUpdate(m);
    assert b.cache[runId := m] == b.cache;
  }

  lemma PutTwice(a: Abstract, runId: string, m: Snapshot, next: Snapshot)
    ensures With(With(a, runId, m), runId, next) == With(a, runId, next)
  {
    var b := With(a, runId, m);
    assert b.cache[runId := next] == a.cache[runId := next] && b.rows[runId := next] == a.rows[runId := next];
  }

  lemma StaysPut(m: Snapshot, event: Event, payload: Context)
    ensures !Next(m, event, payload).0 ==> Next(m, event, payload).1 == m
  {
  }

  lemma SendWith(a: Abstract, runId: string, m: Snapshot, event: Event, payload: Context)
    ensures var (taken, next) := Next(m, event, payload);
            Send(With(a, runId, m), runId, true, event, payload, map[]) == (With(a, runId, next), Sent(taken, next))
  {
    GotAgain(a, runId, m);
    PutTwice(a, runId, m, Next(m, event, payload).1);
    StaysPut(m, event, payload);
  }

  /** Sends an event to the run's machine, which exists. */
  method SendTo(bridge: OrcaBridge, runId: string, event: Event, payload: Context, ghost before: Abstract,
                ghost m: Snapshot)
    returns (machine: Machine)
    requires bridge.Valid() && bridge.View() == With(before, runId, m)
    modifies bridge, bridge.machines.Values, bridge.store
    ensures bridge.Valid() && fresh(bridge.machines.Values - old(bridge.machines.Values))
    ensures machine.View() == Next(m, event, payload).1
    ensures bridge.View() == With(before, runId, machine.View())
    ensures runId in bridge.machines && bridge.machines[runId] == machine
  {
    SendWith(before, runId, m, event, payload);
    var found, _, _ := bridge.SendEvent(runId, true, event, payload, map[]);
    machine := found;
  }

  /** The facts, and the event that asks for the verdict. */
  method SendFacts(bridge: OrcaBridge, runId: string, fields: Fields, flags: Context, ghost before: Abstract,
                   ghost m: Snapshot)
    returns (machine: Machine)
    requires bridge.Valid() && bridge.View() == With(before, runId, m)
    modifies bridge, bridge.machines.Values, bridge.store
    ensures bridge.Valid() && fresh(bridge.machines.Values - old(bridge.machines.Values))
    ensures machine.View() == Next(Next(m, EXTRACTED, Payload(fields, flags)).1, EVALUATE, map[]).1
    ensures bridge.View() == With(before, runId, machine.View())
  {
    var payload := Payload(fields, flags);
    machine := SendTo(bridge, runId, EXTRACTED, payload, before, m);
    machine := SendTo(bridge, runId, EVALUATE, map[], before, machine.View());
  }

  function ReadOff(machine: Machine, fields: Fields, documentType: string, text: string): Report
    reads machine
  {
    var m := Snapshot(machine.state, machine.context);
    Report(VerdictOf(m), StateName(m.state), ReasonsOf(m), fields, documentType, text)
  }

  /** Drives the new machine with what was found and reads the report off it; after an exception there is nothing
      more to send. */
  method Follow(bridge: OrcaBridge, runId: string, findings: Findings, context: Context, ghost before: Abstract)
    returns (report: Report)
    requires bridge.Valid() && bridge.View() == With(before, runId, Snapshot(Received, context))
    modifies bridge, bridge.machines.Values, bridge.store
    ensures bridge.Valid() && fresh(bridge.machines.Values - old(bridge.machines.Values))
    ensures report == Reported(findings, context)
    ensures bridge.View() == With(before, runId, Ends(findings, context))
  {
    ghost var start := Snapshot(Received, context);
    match findings
    case Broken(message, text) =>
      report := Report(Text("error"), "error", Items([Some(message)]), [], "contract", text);
    case Unreadable(error) =>
      var machine := SendTo(bridge, runId, EXTRACTION_FAILED, ErrorPayload(error), before, start);
      report := ReadOff(machine, [], "contract", "");
    case Facts(fields, flags, documentType, text) =>
      var machine := SendFacts(bridge, runId, fields, flags, before, start);
      report := ReadOff(machine, fields, documentType, text);
  }

  /** The run's part between the claim and the analysis, on the bridge's own objects. */
  method RunMachine(bridge: OrcaBridge, runId: string, documentId: string, owner: string, c: Case)
      returns (report: Report)
    requires bridge.Valid() && runId !in bridge.machines && runId !in bridge.store.rows
    modifies bridge, bridge.machines.Values, bridge.store
    ensures bridge.Valid() && fresh(bridge.machines.Values - old(bridge.machines.Values))
    ensures report == Reported(Find(c), Creation(documentId, owner))
    ensures bridge.View() == With(old(bridge.View()), runId, Ends(Find(c), Creation(documentId, owner)))
  {
    var context := Creation(documentId, owner);
    assert "owner" in context;
    ghost var before := bridge.View();
    CreateWith(before, runId, context);
    var _, _ := bridge.GetOrCreateMachine(runId, true, context);
    var findings := FindFields(c);
    report := Follow(bridge, runId, findings, context, before);
  }

  // ----- what the verdict means -----

  lemma {:induction false} FoldReads(context: Context, payload: Context, keys: seq<string>, key: string)
    requires key in keys && key in payload
    ensures key in Fold(context, payload, keys) && Fold(context, payload, keys)[key] == payload[key]
  {
    var n := |keys| - 1;
    if keys[n] != key {
      assert keys == keys[..n] + [keys[n]];
      FoldReads(context, payload, keys[..n], key);
    }
  }

  /** After the facts are recorded, the machine knows exactly how many fields are missing and which. */
  lemma FactsRecorded(context: Context, fields: Fields, flags: Context)
    ensures var m := Next(Snapshot(Received, context), EXTRACTED, Payload(fields, flags)).1;
            && m.state == Validating
            && MissingCount(m.context) == Some(|Missing(fields)|)
            && "missing_fields" in m.context && m.context["missing_fields"] == Items(Named(Missing(fields)))
  {
    var payload := Payload(fields, flags);
    TableIs(Snapshot(Received, context), EXTRACTED);
    assert "missing_count"[8] != "missing_fields"[8];
    assert FOLDED[0] == "missing_count";
    assert payload["missing_count"] == Num(|Missing(fields)|);
    FoldReads(context, payload, FOLDED, "missing_count");
  }

  lemma FlagNames(a: string, b: string)
    ensures "has_" + a == "has_" + b ==> a == b
    ensures "has_" + a != "missing_count" && "has_" + a != "missing_fields"
  {
    assert ("has_" + a)[4..] == a && ("has_" + b)[4..] == b;
    assert ("has_" + a)[0] == 'h';
  }

  lemma {:induction false} FlagOf(fields: Fields, i: nat)
    requires DistinctNames(fields) && i < |fields|
    ensures "has_" + fields[i].0 in Flags(fields)
            && Flags(fields)["has_" + fields[i].0] == Num(if fields[i].1 then 1 else 0)
  {
    var n := |fields| - 1;
    FlagNames(fields[i].0, fields[n].0);
    if i < n {
      FlagOf(fields[..n], i);
    }
  }

  lemma CoreFlagsFolded()
    ensures forall k :: k in CONTRACT_REQUIRED ==> "has_" + k in FOLDED
  {
    var names := CONTRACT_REQUIRED;
    assert "has_" + names[0] == FOLDED[1] && "has_" + names[1] == FOLDED[2] && "has_" + names[2] == FOLDED[3]
           && "has_" + names[3] == FOLDED[4] && "has_" + names[4] == FOLDED[5];
  }

  lemma EntersValidating(context: Context, payload: Context)
    ensures Next(Snapshot(Received, context), EXTRACTED, payload).1 == Snapshot(Validating, Extracted(context, payload))
  {
    TableIs(Snapshot(Received, context), EXTRACTED);
  }

  lemma ExtractedReads(context: Context, payload: Context, key: string)
    requires key in FOLDED && key in payload && key != "missing_fields"
    ensures key in Extracted(context, payload) && Extracted(context, payload)[key] == payload[key]
  {
    FoldReads(context, payload, FOLDED, key);
  }

  lemma PayloadKeeps(fields: Fields, flags: Context, key: string)
    requires key in flags && key != "missing_count" && key != "missing_fields"
    ensures key in Payload(fields, flags) && Payload(fields, flags)[key] == flags[key]
  {
  }

  /** With the deterministic extractor the machine's context holds a flag for each core field, one where its pattern
      was found and zero elsewhere. */
  lemma FlagsRecorded(context: Context, find: Detector, text: string, k: string)
    requires k in CONTRACT_REQUIRED
    ensures var fields := Detected(CONTRACT_REQUIRED, find, text);
            var m := Next(Snapshot(Received, context), EXTRACTED, Payload(fields, Flags(fields))).1;
            "has_" + k in m.context && m.context["has_" + k] == Num(if find(k, ToLower(text)) then 1 else 0)
  {
    var fields := Detected(CONTRACT_REQUIRED, find, text);
    var flags := Flags(fields);
    DistinctCore(find, text);
    var i :| 0 <= i < |CONTRACT_REQUIRED| && CONTRACT_REQUIRED[i] == k;
    FlagOf(fields, i);
    FlagNames(k, k);
    CoreFlagsFolded();
    PayloadKeeps(fields, flags, "has_" + k);
    ExtractedReads(context, Payload(fields, flags), "has_" + k);
    EntersValidating(context, Payload(fields, flags));
  }

  lemma MissingNamed(context: Context, names: seq<string>)
    requires names != [] && "missing_fields" in context && context["missing_fields"] == Items(Named(names))
    ensures InvalidReasons(context, map[]) == MissingReasons(Named(names))
  {
  }

  lemma ReadsVerdict(state: State, context: Context, verdict: string, reasons: Value)
    requires verdict != ""
    ensures var m := Snapshot(state, context["verdict" := Text(verdict)]["reasons" := reasons]);
            VerdictOf(m) == Text(verdict) && ReasonsOf(m) == reasons
  {
  }

  lemma DecidesValid(m: Snapshot)
    requires m.state == Validating && MissingCount(m.context) == Some(0)
    ensures Next(m, EVALUATE, map[]).1 == Snapshot(Valid, m.context["verdict" := Text("pass")]["reasons" := Items([])])
  {
    TableIs(m, EVALUATE);
  }

  lemma DecidesInvalid(m: Snapshot)
    requires m.state == Validating && MissingCount(m.context).Some? && MissingCount(m.context).value > 0
    ensures Next(m, EVALUATE, map[]).1
         == Snapshot(Invalid, m.context["verdict" := Text("fail")]
                                       ["reasons" := Items(InvalidReasons(m.context, map[]))])
  {
    TableIs(m, EVALUATE);
  }

  /** The machine's decision on any fields: valid with no reasons if all of them are there, and otherwise invalid,
      naming the absent ones. */
  lemma MachineDecides(context: Context, fields: Fields, flags: Context, documentType: string, text: string)
    ensures var m := Ends(Facts(fields, flags, documentType, text), context);
            && m.state == (if AllPresent(fields) then Valid else Invalid)
            && VerdictOf(m) == Text(if AllPresent(fields) then "pass" else "fail")
            && ReasonsOf(m) == Items(if AllPresent(fields) then [] else MissingReasons(Named(Missing(fields))))
  {
    FactsRecorded(context, fields, flags);
    MissingIs(fields);
    var m := Next(Snapshot(Received, context), EXTRACTED, Payload(fields, flags)).1;
    if AllPresent(fields) {
      DecidesValid(m);
      ReadsVerdict(Valid, m.context, "pass", Items([]));
    } else {
      DecidesInvalid(m);
      MissingNamed(m.context, Missing(fields));
      ReadsVerdict(Invalid, m.context, "fail", Items(MissingReasons(Named(Missing(fields)))));
    }
  }

  /** Every run ends in one of three verdicts: an error exactly when reading or extraction broke or the text was not
      readable; otherwise pass exactly when every field is there, and fail with the absent ones named in order. */
  lemma VerdictIsAllPresent(findings: Findings, context: Context)
    ensures var r := Reported(findings, context);
            match findings
            case Broken(message, _) => r.verdict == Text("error") && r.reasons == Items([Some(message)])
            case Unreadable(error) => r.verdict == Text("error") && r.reasons == Items([error])
            case Facts(fields, _, _, _) =>
              && r.fields == fields
              && r.verdict == Text(if AllPresent(fields) then "pass" else "fail")
              && r.reasons.Items? && |r.reasons.vs| == |Missing(fields)|
              && forall i :: 0 <= i < |r.reasons.vs| ==> r.reasons.vs[i] == Some(MISSING + Missing(fields)[i])
  {
    match findings
    case Broken(_, _) =>
    case Unreadable(error) =>
      UnreadableErrs(error, context);
    case Facts(fields, flags, documentType, text) =>
      MachineDecides(context, fields, flags, documentType, text);
      MissingIs(fields);
  }

  lemma UnreadableErrs(error: Option<string>, context: Context)
    ensures var m := Ends(Unreadable(error), context);
            m.state == Errored && VerdictOf(m) == Text("error") && ReasonsOf(m) == Items([error])
  {
    var payload := ErrorPayload(error);
    TableIs(Snapshot(Received, context), EXTRACTION_FAILED);
    assert ErrorReason(payload) == error;
    ReadsVerdict(Errored, context, "error", Items([error]));
  }

  lemma IdentityNotWritten(key: string)
    requires key == "document_id" || key == "owner" || key == "tenant_id"
    ensures forall action :: key !in Written(action)
  {
    assert key[0] != 'm' && key[0] != 'h' && key[0] != 'v' && key[0] != 'r';
  }

  lemma NextKeeps(m: Snapshot, event: Event, payload: Context, key: string)
    requires (forall action :: key !in Written(action)) && key in m.context
    ensures key in Next(m, event, payload).1.context && Next(m, event, payload).1.context[key] == m.context[key]
  {
    match FirstRow(ROWS, m, event)
    case Some(row) => ActedKeeps(row.action, m.context, payload, key);
    case None =>
  }

  lemma EndsKeeps(findings: Findings, context: Context, key: string)
    requires (forall action :: key !in Written(action)) && key in context
    ensures key in Ends(findings, context).context && Ends(findings, context).context[key] == context[key]
  {
    var start := Snapshot(Received, context);
    match findings
    case Broken(_, _) =>
    case Unreadable(error) => NextKeeps(start, EXTRACTION_FAILED, ErrorPayload(error), key);
    case Facts(fields, flags, _, _) =>
      NextKeeps(start, EXTRACTED, Payload(fields, flags), key);
      NextKeeps(Next(start, EXTRACTED, Payload(fields, flags)).1, EVALUATE, map[], key);
  }

  /** Wherever a validation ends, its machine knows the document, its owner and, as tenant, the owner again. */
  lemma MachineKnowsItsDocument(findings: Findings, documentId: string, owner: string)
    ensures var known := Ends(findings, Creation(documentId, owner)).context;
            && "document_id" in known && known["document_id"] == Text(documentId)
            && "owner" in known && known["owner"] == Text(owner)
            && "tenant_id" in known && known["tenant_id"] == Text(owner)
  {
    CreationKnows(documentId, owner);
    IdentityNotWritten("document_id");
    IdentityNotWritten("owner");
    IdentityNotWritten("tenant_id");
    EndsKeeps(findings, Creation(documentId, owner), "document_id");
    EndsKeeps(findings, Creation(documentId, owner), "owner");
    EndsKeeps(findings, Creation(documentId, owner), "tenant_id");
  }

  lemma CreationKnows(documentId: string, owner: string)
    ensures var known := Creation(documentId, owner);
            && "document_id" in known && known["document_id"] == Text(documentId)
            && "owner" in known && known["owner"] == Text(owner)
            && "tenant_id" in known && known["tenant_id"] == Text(owner)
  {
    var a, b, c := "document_id", "owner", "tenant_id";
    assert a[0] != b[0] && b[0] != c[0] && a[0] != c[0];
  }

  /** The reported final state is the state the machine is really in exactly when reading and extracting raised no
      exception: after one, the report says `error` while the machine still waits where it started. */
  lemma FinalStateIsMachinesIff(findings: Findings, context: Context)
    ensures Reported(findings, context).finalState == StateName(Ends(findings, context).state) <==> !findings.Broken?
    ensures findings.Broken? ==> Ends(findings, context) == Snapshot(Received, context)
  {
  }

  /** A contract cannot pass without all five core fields. */
  lemma ContractPassHasCore(c: Case, context: Context)
    requires Find(c).Facts? && IsContractLike(Find(c).documentType)
    requires Reported(Find(c), context).verdict == Text("pass")
    ensures forall k :: k in CONTRACT_REQUIRED ==> (k, true) in Reported(Find(c), context).fields
  {
    var findings := Find(c);
    VerdictIsAllPresent(findings, context);
    var core := Detected(CONTRACT_REQUIRED, c.find, findings.text);
    CoreNames(c.find, findings.text);
    assert "pass"[0] != "fail"[0];
    forall k | k in CONTRACT_REQUIRED ensures (k, true) in findings.fields {
      if c.llmEnabled {
        MergedIs(AnswerFields(c.answer.value), core);
        assert HasField(core, k) by {
          var i :| 0 <= i < |core| && core[i] == (k, c.find(k, ToLower(findings.text)));
        }
        var i :| 0 <= i < |findings.fields| && findings.fields[i].0 == k;
        assert findings.fields[i] in findings.fields;
      }
    }
  }

  ghost predicate Mentioned(items: seq<(string, bool)>, name: string) {
    LastFlag(items, name, true) || LastFlag(items, name, false)
  }

  /** A document type, cut to the 128 characters its column holds. */
  function Shortened(documentType: string): (r: string)
    ensures r <= documentType && |r| == if |documentType| > 128 then 128 else |documentType|
  {
    if |documentType| > 128 then documentType[..128] else documentType
  }

  lemma EmptyOrDocument()
    ensures !IsContractLike("") && !IsContractLike("document")
  {
    DocumentIsNoContract();
    var s, words := "", CONTRACT_LIKE;
    assert ToLower(s) == s;
    forall k | k in words ensures !Contains(s, k) {
      NotContained(s, k);
    }
  }

  /** What it takes for a document the model answered about to pass: no name whose last item says it is absent, and
      for a contract each core field either mentioned by the model or found in the text. */
  lemma AnsweredPassIff(c: Case, context: Context)
    requires c.parsed.Returned? && Readable(c.parsed.value) && c.llmEnabled
    requires c.answer.Returned? && c.answer.value.Answer?
    ensures var items, text := c.answer.value.items, c.parsed.value.text;
            Reported(Find(c), context).verdict == Text("pass")
            <==> && (forall name :: name != "" ==> !LastFlag(items, name, false))
                 && (IsContractLike(Shortened(c.answer.value.documentType)) ==>
                     forall k :: k in CONTRACT_REQUIRED ==> Mentioned(items, k) || c.find(k, ToLower(text)))
  {
    EmptyOrDocument();
    var items, text := c.answer.value.items, c.parsed.value.text;
    VerdictIsAllPresent(Find(c), context);
    assert "pass"[0] != "fail"[0];
    FoldedIsLast(items);
    FoldedAllPresent(items);
    if IsContractLike(TypeOf(c.answer.value)) {
      MergedAllPresent(items, c.find, text);
    }
  }

  lemma FoldedAllPresent(items: seq<(string, bool)>)
    ensures AllPresent(Folded(items)) <==> forall name :: name != "" ==> !LastFlag(items, name, false)
  {
    FoldedIsLast(items);
    if AllPresent(Folded(items)) {
      forall name | name != "" ensures !LastFlag(items, name, false) {
        assert (name, false) !in Folded(items);
      }
    }
    if !AllPresent(Folded(items)) {
      var f :| f in Folded(items) && !f.1;
      assert f == (f.0, false);
    }
  }

  lemma FieldHasFlag(fields: Fields, name: string)
    ensures HasField(fields, name) <==> (name, true) in fields || (name, false) in fields
  {
    if HasField(fields, name) {
      var i :| 0 <= i < |fields| && fields[i].0 == name;
      var (n, present) := fields[i];
      assert (n, present) in fields;
      if present {
        assert (name, true) in fields;
      } else {
        assert (name, false) in fields;
      }
    }
  }

  lemma FoldedHasField(items: seq<(string, bool)>, name: string)
    requires name != ""
    ensures HasField(Folded(items), name) <==> Mentioned(items, name)
  {
    FoldedIsLast(items);
    var fields := Folded(items);
    FieldHasFlag(fields, name);
    assert (name, true) in fields <==> LastFlag(items, name, true);
    assert (name, false) in fields <==> LastFlag(items, name, false);
  }

  lemma MergedAllPresent(items: seq<(string, bool)>, find: Detector, text: string)
    ensures AllPresent(Merged(Folded(items), Detected(CONTRACT_REQUIRED, find, text)))
       <==> && AllPresent(Folded(items))
            && forall k :: k in CONTRACT_REQUIRED ==> Mentioned(items, k) || find(k, ToLower(text))
  {
    var fields, core := Folded(items), Detected(CONTRACT_REQUIRED, find, text);
    CoreNames(find, text);
    MergedIs(fields, core);
    forall k | k in CONTRACT_REQUIRED ensures HasField(fields, k) <==> Mentioned(items, k) {
      FoldedHasField(items, k);
    }
    if AllPresent(Merged(fields, core)) {
      forall k | k in CONTRACT_REQUIRED ensures Mentioned(items, k) || find(k, ToLower(text)) {
        assert (k, find(k, ToLower(text))) in core;
      }
    }
  }

  /** A word does not occur if each place it could start at has another first or second letter. */
  lemma NotContained(s: string, word: string)
    requires |word| >= 2
    requires forall i :: 0 <= i <= |s| - |word| ==> s[i] != word[0] || s[i + 1] != word[1]
    ensures !Contains(s, word)
  {
    forall i | 0 <= i <= |s| ensures !StartsWith(s[i..], word) {
      if i + |word| <= |s| {
        assert s[i..][..|word|][0] == s[i] && s[i..][..|word|][1] == s[i + 1];
      }
    }
  }

  lemma DocumentIsNoContract()
    ensures !IsContractLike("document")
  {
    var s, words := "document", CONTRACT_LIKE;
    assert ToLower(s) == s;
    forall k | k in words ensures !Contains(s, k) {
      NotContained(s, k);
    }
  }

  /** An answer that is not JSON asks for nothing, so every readable document passes on it. */
  lemma BadAnswerPasses(c: Case, context: Context)
    requires c.parsed.Returned? && Readable(c.parsed.value) && c.llmEnabled && c.answer == Returned(BadJson)
    ensures Reported(Find(c), context).verdict == Text("pass") && Reported(Find(c), context).fields == []
  {
    DocumentIsNoContract();
    VerdictIsAllPresent(Find(c), context);
  }
}
