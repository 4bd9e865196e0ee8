/** What the reference of StoreRuns remembers, in terms of the list of operations. */
module StoreReference {
  import opened Check
  import opened Ring
  import opened StoreModel
  import opened StoreRuns
  import opened StoreResults
  import Keys

  /** The results pushed under a key, in order. */
  function PushedUnder(ops: seq<Op>, key: string): seq<Result> {
    if ops == [] then []
    else
      var op := ops[|ops| - 1];
      PushedUnder(ops[..|ops| - 1], key) +
      if op.Push? && Keys.CheckKey(op.r.typ, op.r.name) == key then [op.r] else []
  }

  /** The flags recorded for a check and metric, in order. */
  function RecordedFor(ops: seq<Op>, check: string, metric: string): seq<bool> {
    if ops == [] then []
    else
      var op := ops[|ops| - 1];
      RecordedFor(ops[..|ops| - 1], check, metric) +
      if op.Record? && op.check == check && op.metric == metric then [op.violated] else []
  }

  predicate Forgets(op: Op) {
    op.Reconcile? || op.Restart?
  }

  /** Until a reconcile or a restart, the reference's history under a key is the list of everything pushed under it. */
  lemma {:induction false} ReferenceIsEverythingPushed(ops: seq<Op>, key: string)
    requires forall op :: op in ops ==> !Forgets(op)
    ensures key in RefRun(ops).rings.hist <==> PushedUnder(ops, key) != []
    ensures key in RefRun(ops).rings.hist ==> RefRun(ops).rings.hist[key] == PushedUnder(ops, key)
  {
    if ops == [] {
    } else {
      var n := |ops| - 1;
      assert ops[n] in ops;
      ReferenceIsEverythingPushed(ops[..n], key);
    }
  }

  /** And its flags for a check and metric are those recorded for that pair, if no metric has a colon. */
  lemma {:induction false} ReferenceIsEverythingRecorded(ops: seq<Op>, check: string, metric: string)
    requires forall op :: op in ops ==> !Forgets(op) && (op.Record? ==> ':' !in op.metric)
    requires ':' !in metric
    ensures Flags(RefRun(ops).budgets, Keys.BudgetKey(check, metric)) == RecordedFor(ops, check, metric)
  {
    if ops == [] {
    } else {
      var n := |ops| - 1;
      var op := ops[n];
      assert op in ops;
      ReferenceIsEverythingRecorded(ops[..n], check, metric);
      if op.Record? && Keys.BudgetKey(op.check, op.metric) == Keys.BudgetKey(check, metric) {
        Keys.BudgetKeyInjective(op.check, op.metric, check, metric);
      }
    }
  }

  /** So until then the ring of a key shows the last 90 results ever pushed under it. */
  lemma HistoryIsLastNinetyPushed(ops: seq<Op>, key: string)
    requires forall op :: op in ops ==> !Forgets(op)
    ensures
      var checks := Run(ops).rings.checks;
      && (key in checks <==> PushedUnder(ops, key) != [])
      && (key in checks ==>
            checks[key].buf.Valid() && checks[key].buf.Ordered() == Last(Entries(PushedUnder(ops, key)), MAX_HISTORY))
  {
    ReferenceIsEverythingPushed(ops, key);
    HistoryIsLastNinety(ops, key);
  }
}
