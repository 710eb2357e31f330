/** A validation from its claim to its stored result: the rows, the machine behind the bridge and the fields
    together. */
module Validation {
  import opened Options
  import opened ContractMachine
  import opened Extraction
  import opened Pipeline
  import L = Lifecycle
  import B = Bridge
  import S = Storage

  /** A verdict as the result column and the status rule read it. */
  function Recorded(verdict: Value): L.Verdict {
    if verdict == Text("pass") then L.Pass
    else if verdict == Text("fail") then L.Fail
    else L.Error
  }

  /** The rows after a whole validation of a queued run. */
  function Validated(db: L.Database, run: L.RunId, verdict: L.Verdict): L.Database
    requires run in db.runs
  {
    L.Stored(L.SetStatus(db, run, L.Running), run, verdict)
  }

  /** Storing a result touches no machine. */
  method Store(tables: S.Tables, run: L.RunId, verdict: L.Verdict, ghost bridge: B.OrcaBridge)
    requires tables.Valid() && run in tables.db.runs && tables.db.runs[run].status == L.Running && bridge.Valid()
    modifies tables
    ensures tables.Valid() && tables.db == L.Stored(old(tables.db), run, verdict)
    ensures bridge.Valid() && bridge.View() == old(bridge.View())
  {
    tables.Finish(run, verdict);
  }

  /** The part after the claim: the machine decides and the decision is stored. */
  method DecideAndStore(tables: S.Tables, bridge: B.OrcaBridge, run: L.RunId, key: string,
                        documentId: string, owner: string, c: Case) returns (report: Report)
    requires tables.Valid() && bridge.Valid()
    requires run in tables.db.runs && tables.db.runs[run].status == L.Running
    requires key !in bridge.machines && key !in bridge.store.rows
    modifies tables, bridge, bridge.machines.Values, bridge.store
    ensures tables.Valid() && bridge.Valid()
    ensures report == Reported(Find(c), Creation(documentId, owner))
    ensures tables.db == L.Stored(old(tables.db), run, Recorded(report.verdict))
    ensures bridge.View() == With(old(bridge.View()), key, Ends(Find(c), Creation(documentId, owner)))
  {
    report := RunMachine(bridge, key, documentId, owner, c);
    Store(tables, run, Recorded(report.verdict), bridge);
  }

  /** The entry point.  A run that is missing or already claimed is left alone with everything else; a queued one is
      claimed, driven through its machine and stored. */
  method RunValidation(tables: S.Tables, bridge: B.OrcaBridge, run: L.RunId, key: string,
                       documentId: string, owner: string, c: Case) returns (report: Option<Report>)
    requires tables.Valid() && bridge.Valid()
    requires run in tables.db.runs && tables.db.runs[run].status == L.Queued ==>
             key !in bridge.machines && key !in bridge.store.rows
    modifies tables, bridge, bridge.machines.Values, bridge.store
    ensures tables.Valid() && bridge.Valid()
    ensures report.Some? <==> run in old(tables.db).runs && old(tables.db).runs[run].status == L.Queued
    ensures report.None? ==> tables.db == old(tables.db) && bridge.View() == old(bridge.View())
    ensures report.Some? ==>
              && report.value == Reported(Find(c), Creation(documentId, owner))
              && tables.db == Validated(old(tables.db), run, Recorded(report.value.verdict))
              && bridge.View() == With(old(bridge.View()), key, Ends(Find(c), Creation(documentId, owner)))
  {
    ghost var before := bridge.View();
    var claimed := tables.Claim(run);
    assert bridge.View() == before;
    if !claimed {
      return None;
    }
    var result := DecideAndStore(tables, bridge, run, key, documentId, owner, c);
    report := Some(result);
  }

  /** End to end: the stored result is pass exactly when the document was read and every field is there, fail exactly
      when it was read and one is not, and otherwise error; the run and its document are done or failed
      accordingly; and a second validation of the run would change nothing. */
  lemma StoredVerdictIsAllPresent(db: L.Database, run: L.RunId, findings: Findings, context: Context)
    requires L.RowsAgree(db) && run in db.runs && db.runs[run].status == L.Queued
    ensures var db' := Validated(db, run, Recorded(Reported(findings, context).verdict));
            && L.RowsAgree(db') && run in db'.results && run in db'.runs
            && (db'.results[run] == L.Pass <==> findings.Facts? && AllPresent(findings.fields))
            && (db'.results[run] == L.Fail <==> findings.Facts? && !AllPresent(findings.fields))
            && db'.runs[run].status == (if findings.Facts? then L.Done else L.Failed)
            && db'.docs[db'.runs[run].doc] == db'.runs[run].status
            && L.AfterRead(db', run) == L.Ended
  {
    VerdictIsAllPresent(findings, context);
    L.ClaimRows(db, run);
    L.StoreRows(L.SetStatus(db, run, L.Running), run, Recorded(Reported(findings, context).verdict));
  }

  /** A whole validation only moves statuses on and keeps every result there is. */
  lemma ValidatedOnlyAdvances(db: L.Database, run: L.RunId, verdict: L.Verdict, r: L.RunId)
    requires L.RowsAgree(db) && run in db.runs && db.runs[run].status == L.Queued
    ensures L.NoStepBack(db, Validated(db, run, verdict), r)
    ensures r != run && r in db.runs ==> Validated(db, run, verdict).runs[r] == db.runs[r]
  {
  }
}
