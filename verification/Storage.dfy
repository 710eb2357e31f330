/** The shared objects behind the protocols: the Redis list of run ids, the tables of runs, documents and results,
    and the daily token counter.  Each method does what one step of the interleaved models does. */
module Storage {
  import opened Options
  import L = Lifecycle
  import B = Budget

  /** The list of run ids, with the history of what went in and came out. */
  class RunQueue {
    var items: seq<L.RunId>
    ghost var pushed: seq<L.RunId>
    ghost var popped: seq<L.RunId>

    /** What has come out is what went in first. */
    ghost predicate Valid()
      reads this
    {
      pushed == popped + L.Reverse(items)
    }

    constructor ()
      ensures Valid() && items == [] && pushed == [] && popped == []
    {
      items, pushed, popped := [], [], [];
    }

    /** Pushes on the left. */
    method Enqueue(run: L.RunId)
      requires Valid()
      modifies this
      ensures Valid() && items == [run] + old(items)
      ensures pushed == old(pushed) + [run] && popped == old(popped)
    {
      assert ([run] + items)[1..] == items;
      items := [run] + items;
      pushed := pushed + [run];
    }

    /** Pops on the right, or finds nothing. */
    method Dequeue() returns (run: Option<L.RunId>)
      requires Valid()
      modifies this
      ensures Valid() && pushed == old(pushed)
      ensures run.None? <==> old(items) == []
      ensures run.None? ==> items == old(items) && popped == old(popped)
      ensures run.Some? ==> items + [run.value] == old(items) && popped == old(popped) + [run.value]
    {
      if items == [] {
        return None;
      }
      var n := |items| - 1;
      L.ReverseSnoc(items[..n], items[n]);
      assert items == items[..n] + [items[n]];
      run := Some(items[n]);
      popped := popped + [items[n]];
      items := items[..n];
    }
  }

  /** The tables of runs, documents and results. */
  class Tables {
    var db: L.Database

    ghost predicate Valid()
      reads this
    {
      L.RowsAgree(db)
    }

    constructor ()
      ensures Valid() && db == L.Database(map[], map[], map[])
    {
      db := L.Database(map[], map[], map[]);
    }

    /** A new document with a new run, both queued. */
    method Submit(run: L.RunId, doc: L.DocId)
      requires Valid() && run !in db.runs && doc !in db.docs
      modifies this
      ensures Valid() && L.DbAdvances(old(db), db)
      ensures db == old(db).(runs := old(db).runs[run := L.RunRow(doc, L.Queued)],
                             docs := old(db).docs[doc := L.Queued])
    {
      L.SubmitRows(db, run, doc);
      db := db.(docs := db.docs[doc := L.Queued]);
      db := db.(runs := db.runs[run := L.RunRow(doc, L.Queued)]);
    }

    /** Reads the run's status and claims the run if nobody has. */
    method Claim(run: L.RunId) returns (claimed: bool)
      requires Valid()
      modifies this
      ensures Valid() && L.DbAdvances(old(db), db)
      ensures claimed <==> run in old(db).runs && old(db).runs[run].status == L.Queued
      ensures db == if claimed then L.SetStatus(old(db), run, L.Running) else old(db)
    {
      if run !in db.runs || db.runs[run].status != L.Queued {
        return false;
      }
      L.ClaimRows(db, run);
      var doc := db.runs[run].doc;
      db := db.(runs := db.runs[run := L.RunRow(doc, L.Running)]);
      db := db.(docs := db.docs[doc := L.Running]);
      claimed := true;
    }

    /** Stores the result of a claimed run with both status columns. */
    method Finish(run: L.RunId, verdict: L.Verdict)
      requires Valid() && run in db.runs && db.runs[run].status == L.Running
      modifies this
      ensures Valid() && L.DbAdvances(old(db), db)
      ensures db == L.Stored(old(db), run, verdict) && run in db.results && db.results[run] == verdict
    {
      L.StoreRows(db, run, verdict);
      var row := db.runs[run];
      var status := if verdict == L.Pass || verdict == L.Fail then L.Done else L.Failed;
      db := db.(results := db.results[run := verdict]);
      db := db.(runs := db.runs[run := row.(status := status)]);
      db := db.(docs := db.docs[row.doc := status]);
    }

    /** What a poll in between answers: a verdict exactly when the status is terminal. */
    method Poll(run: L.RunId) returns (status: L.Status, verdict: Option<L.Verdict>)
      requires Valid() && run in db.runs
      ensures status == db.runs[run].status && (verdict.Some? <==> L.Terminal(status))
      ensures verdict.Some? ==> run in db.results && verdict.value == db.results[run]
      ensures verdict.Some? ==> (status == L.Done <==> verdict.value in {L.Pass, L.Fail})
    {
      status := db.runs[run].status;
      verdict := if run in db.results then Some(db.results[run]) else None;
    }
  }

  /** The tokens used on each day. */
  class TokenCounter {
    var used: map<B.Day, nat>

    ghost function UsedOn(day: B.Day): nat
      reads this
    {
      if day in used then used[day] else 0
    }

    constructor ()
      ensures used == map[]
    {
      used := map[];
    }

    /** Refuses when the day's budget is spent; without a budget, or when the counter cannot be read, it allows. */
    method CheckBudget(day: B.Day, budget: int, readable: bool) returns (refused: bool)
      ensures refused <==> readable && B.Refuses(budget, UsedOn(day))
    {
      if budget <= 0 || !readable {
        return false;
      }
      var tokens := if day in used then used[day] else 0;
      refused := tokens >= budget;
    }

    /** Adds the tokens of one call to its day and to no other. */
    method RecordUsage(day: B.Day, tokens: int, writable: bool)
      modifies this
      ensures UsedOn(day) == old(UsedOn(day)) + if writable && tokens > 0 then tokens else 0
      ensures forall other: B.Day :: other != day ==> UsedOn(other) == old(UsedOn(other))
    {
      if tokens <= 0 || !writable {
        return;
      }
      used := used[day := (if day in used then used[day] else 0) + tokens];
    }

    /** One model call between its check and its record, with nobody else calling.  The day may change and the store
        may fail in between, and a call that fails records nothing.  If the counter could be read and the day stays
        the same, the day's usage stays below the budget and one call. */
    method Chat(checkDay: B.Day, recordDay: B.Day, budget: int, readable: bool, answered: bool, tokens: int,
                writable: bool)
      returns (refused: bool)
      modifies this
      ensures refused <==> readable && B.Refuses(budget, old(UsedOn(checkDay)))
      ensures UsedOn(recordDay)
           == old(UsedOn(recordDay)) + if !refused && answered && writable && tokens > 0 then tokens else 0
      ensures forall day: B.Day :: day != recordDay ==> UsedOn(day) == old(UsedOn(day))
      ensures readable && budget > 0 && checkDay == recordDay ==>
              UsedOn(checkDay) <= old(UsedOn(checkDay)) || UsedOn(checkDay) <= budget - 1 + tokens
    {
      refused := CheckBudget(checkDay, budget, readable);
      if !refused && answered {
        RecordUsage(recordDay, tokens, writable);
      }
    }
  }
}
