/** What is reported for a document, told by what the parser, the model and the extractor answered about it. */
module Verdicts {
  import opened Options
  import opened Text
  import opened ContractMachine
  import opened Extraction
  import opened Pipeline

  // ----- the guards of the cases -----

  /** A parsed document is readable if there was no error and some character of its text is visible. */
  lemma ReadableIff(ocr: Ocr)
    ensures Readable(ocr) <==> ocr.error.None? && exists i :: 0 <= i < |ocr.text| && !IsSpace(ocr.text[i])
  {
    var before, core, after := StripApart(ocr.text);
    if core == "" {
      assert ocr.text == before + after;
    } else {
      assert !IsSpace(core[0]) && ocr.text[|before|] == core[0];
    }
  }

  /** The kinds of document that are held to the core fields: those whose lower-cased type contains one of eleven
      words. */
  lemma ContractLikeIff(documentType: string)
    ensures var d := ToLower(documentType);
            IsContractLike(documentType)
            <==> || Contains(d, "agreement") || Contains(d, "contract") || Contains(d, "lease")
                 || Contains(d, "license")
                 || Contains(d, "nda") || Contains(d, "non-disclosure") || Contains(d, "terms of service")
                 || Contains(d, "terms and conditions") || Contains(d, "memorandum of understanding")
                 || Contains(d, "mou") || Contains(d, "addendum")
  {
    ElevenWords(CONTRACT_LIKE, ToLower(documentType));
  }

  lemma ElevenWords(ks: seq<string>, d: string)
    requires |ks| == 11
    ensures (exists k :: k in ks && Contains(d, k))
       <==> || Contains(d, ks[0]) || Contains(d, ks[1]) || Contains(d, ks[2]) || Contains(d, ks[3])
            || Contains(d, ks[4]) || Contains(d, ks[5]) || Contains(d, ks[6]) || Contains(d, ks[7])
            || Contains(d, ks[8]) || Contains(d, ks[9]) || Contains(d, ks[10])
  {
  }

  // ----- documents the model answered about -----

  /** The model is configured and answered about a readable document. */
  predicate Answered(c: Case, documentType: string, items: seq<(string, bool)>) {
    && c.parsed.Returned? && Readable(c.parsed.value)
    && c.llmEnabled && c.answer == Returned(Answer(documentType, items))
  }

  /** The reported type is the answer's, cut to 128 characters, and `document` if the answer gives none. */
  lemma AnsweredType(c: Case, context: Context, documentType: string, items: seq<(string, bool)>)
    requires Answered(c, documentType, items)
    ensures var r := Reported(Find(c), context);
            && r.text == c.parsed.value.text
            && (documentType == "" ==> r.documentType == "document")
            && (1 <= |documentType| <= 128 ==> r.documentType == documentType)
            && (|documentType| > 128 ==> |r.documentType| == 128 && r.documentType <= documentType)
  {
  }

  /** The reported fields: each name of the answer with the flag of its last item, and for a contract each core field
      the answer has no name for, as the text shows it. */
  lemma AnsweredFieldsAre(c: Case, context: Context, documentType: string, items: seq<(string, bool)>)
    requires Answered(c, documentType, items)
    ensures forall name, present ::
            (name, present) in Reported(Find(c), context).fields
            <==> || (name != "" && LastFlag(items, name, present))
                 || (IsContractLike(Shortened(documentType)) && name in CONTRACT_REQUIRED && !Mentioned(items, name)
                     && present == c.find(name, ToLower(c.parsed.value.text)))
  {
    EmptyOrDocument();
    FoldedIsLast(items);
    var fields, core := Folded(items), Detected(CONTRACT_REQUIRED, c.find, c.parsed.value.text);
    if IsContractLike(Shortened(documentType)) {
      CoreNames(c.find, c.parsed.value.text);
      MergedIs(fields, core);
      forall name | name in CONTRACT_REQUIRED ensures HasField(fields, name) <==> Mentioned(items, name) {
        FoldedHasField(items, name);
      }
    }
  }

  /** Their order: the answer's names as first given, then the core fields in theirs. */
  lemma AnsweredFieldsInOrder(c: Case, context: Context, documentType: string, items: seq<(string, bool)>)
    requires Answered(c, documentType, items)
    ensures var fields := Reported(Find(c), context).fields;
            && |Folded(items)| <= |fields| && Names(fields[..|Folded(items)|]) == FirstOccurrences(CleanNames(items))
            && fields[|Folded(items)|..]
               == if IsContractLike(Shortened(documentType))
                  then Unnamed(Folded(items), Detected(CONTRACT_REQUIRED, c.find, c.parsed.value.text)) else []
  {
    EmptyOrDocument();
    FoldedInOrder(items);
    DistinctCore(c.find, c.parsed.value.text);
    MergedInOrder(Folded(items), Detected(CONTRACT_REQUIRED, c.find, c.parsed.value.text));
    FrontAndBack(Folded(items), Unnamed(Folded(items), Detected(CONTRACT_REQUIRED, c.find, c.parsed.value.text)));
    FrontAndBack(Folded(items), []);
    assert Folded(items) + [] == Folded(items);
  }

  lemma FrontAndBack(a: Fields, b: Fields)
    ensures (a + b)[..|a|] == a && (a + b)[|a|..] == b
  {
  }

  /** A document whose answered type, as far as it is kept, is that of a contract passes only with all five core
      fields. */
  lemma AnsweredContractHasCore(c: Case, context: Context, documentType: string, items: seq<(string, bool)>)
    requires Answered(c, documentType, items) && IsContractLike(Shortened(documentType))
    requires Reported(Find(c), context).verdict == Text("pass")
    ensures var fields := Reported(Find(c), context).fields;
            && ("parties", true) in fields && ("effective_date", true) in fields && ("term", true) in fields
            && ("signatures", true) in fields && ("governing_law", true) in fields
  {
    EmptyOrDocument();
    AnsweredType(c, context, documentType, items);
    ContractPassHasCore(c, context);
    var names := CONTRACT_REQUIRED;
    assert names[0] in names && names[1] in names && names[2] in names && names[3] in names && names[4] in names;
  }

  // ----- all other documents -----

  /** Without a model the five core fields are looked for in the text, and the document is taken for a contract. */
  lemma ExtractedReport(c: Case, context: Context)
    requires c.parsed.Returned? && Readable(c.parsed.value) && !c.llmEnabled && c.extractor.Returned?
    ensures var r, text := Reported(Find(c), context), ToLower(c.parsed.value.text);
            && r.documentType == "contract" && r.text == c.parsed.value.text
            && |r.fields| == 5 && (forall i :: 0 <= i < 5 ==>
                 r.fields[i] == (CONTRACT_REQUIRED[i], c.find(CONTRACT_REQUIRED[i], text)))
            && (r.verdict == Text("pass") <==> forall k :: k in CONTRACT_REQUIRED ==> c.find(k, text))
            && (r.verdict == Text("pass") || r.verdict == Text("fail"))
  {
    VerdictIsAllPresent(Find(c), context);
    DetectedFields(CONTRACT_REQUIRED, c.find, c.parsed.value.text);
    assert "pass"[0] != "fail"[0];
    var fields := Detected(CONTRACT_REQUIRED, c.find, c.parsed.value.text);
    if AllPresent(fields) {
      forall k | k in CONTRACT_REQUIRED ensures c.find(k, ToLower(c.parsed.value.text)) {
        assert (k, c.find(k, ToLower(c.parsed.value.text))) in fields;
      }
    }
  }

  /** What is reported when no verdict could be reached: the message of the first exception, or the parser's error. */
  lemma ErrorReport(c: Case, context: Context)
    ensures var r := Reported(Find(c), context);
            var readable := c.parsed.Returned? && Readable(c.parsed.value);
            && (r.verdict == Text("error")
                <==> !readable || (if c.llmEnabled then c.answer.Raised? else c.extractor.Raised?))
            && (r.verdict == Text("error") ==>
                r.finalState == "error" && r.fields == [] && r.documentType == "contract")
            && (c.parsed.Raised? ==> r.reasons == Items([Some(c.parsed.message)]) && r.text == "")
            && (c.parsed.Returned? && !readable ==> r.reasons == Items([c.parsed.value.error]) && r.text == "")
            && (readable && c.llmEnabled && c.answer.Raised? ==>
                r.reasons == Items([Some(c.answer.message)]) && r.text == c.parsed.value.text)
            && (readable && !c.llmEnabled && c.extractor.Raised? ==>
                r.reasons == Items([Some(c.extractor.message)]) && r.text == c.parsed.value.text)
  {
    VerdictIsAllPresent(Find(c), context);
    assert "pass"[0] != "error"[0] && "fail"[0] != "error"[0];
    if Find(c).Unreadable? {
      UnreadableErrs(Find(c).error, context);
    }
  }

  lemma StateNamesDiffer(state: State)
    ensures StateName(state) == "valid" <==> state == Valid
    ensures StateName(state) == "invalid" <==> state == Invalid
    ensures StateName(state) == "error" <==> state == Errored
  {
    var valid, invalid, error := "valid", "invalid", "error";
    assert valid[0] != invalid[0] && valid[0] != error[0] && invalid[0] != error[0];
    assert StateName(Validating)[2] == 'l' && |StateName(Validating)| == 10;
  }

  lemma VerdictNamesDiffer(v: Value)
    ensures (if v == Text("pass") then 1 else 0) + (if v == Text("fail") then 1 else 0)
            + (if v == Text("error") then 1 else 0) <= 1
  {
    var pass, fail, error := "pass", "fail", "error";
    assert pass[0] != fail[0] && pass[0] != error[0] && fail[0] != error[0];
  }

  lemma EndsAsReported(findings: Findings, context: Context)
    requires !findings.Broken?
    ensures var state, verdict := Ends(findings, context).state, Reported(findings, context).verdict;
            || (state == Valid && verdict == Text("pass"))
            || (state == Invalid && verdict == Text("fail"))
            || (state == Errored && verdict == Text("error"))
  {
    match findings
    case Unreadable(e) => UnreadableErrs(e, context);
    case Facts(fields, flags, documentType, text) => MachineDecides(context, fields, flags, documentType, text);
  }

  /** The reported final state is named after the verdict. */
  lemma FinalStateNames(c: Case, context: Context)
    ensures var r := Reported(Find(c), context);
            && (r.verdict == Text("pass") <==> r.finalState == "valid")
            && (r.verdict == Text("fail") <==> r.finalState == "invalid")
            && (r.verdict == Text("error") <==> r.finalState == "error")
  {
    var findings := Find(c);
    VerdictNamesDiffer(Reported(findings, context).verdict);
    StateNamesDiffer(Errored);
    if !findings.Broken? {
      EndsAsReported(findings, context);
      StateNamesDiffer(Ends(findings, context).state);
    }
  }
}
