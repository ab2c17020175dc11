/** Moving transactions off the main timeline: each is undone by transacting its log rows with
    additions and retractions swapped, and removing the rewinding transaction's own instant. */
module Rewind {
  import opened Transactor
  import opened TransactorIntent
  import opened TransactorStore
  import opened TransactorMarks

  ghost predicate DistinctFacts(ts: seq<SearchRow>) {
    forall i, j | 0 <= i < j < |ts| :: ts[i].fact != ts[j].fact
  }

  /** `txn` holds the log rows of `tx` with their meaning swapped, each fact once, plus the instant
      that every transaction asserts of its own id. */
  ghost predicate Reverses(schema: Schema, log: seq<LogRow>, tx: int, txn: Txn, instant: Fact) {
    && Routed(schema, txn)
    && DistinctFacts(txn.exact) && DistinctFacts(txn.inexact)
    && instant.e == txn.tx
    && instant.a in schema && instant.tag == schema[instant.a].tag && !schema[instant.a].multival
    && (forall f :: Named(txn, f) <==> f in TxFacts(log, tx, true))
    && (forall f :: Asserted(txn, f) <==> f in TxFacts(log, tx, false) || f == instant)
  }

  ghost predicate NoEntity(view: set<Fact>, e: int) {
    forall f | f in view :: f.e != e
  }

  /** `now` is one logged step after `before`. */
  ghost predicate StepBetween(schema: Schema, before: set<Fact>, now: set<Fact>, log: seq<LogRow>, tx: int) {
    && ViewTyped(schema, before) && CardinalityOne(schema, before)
    && TxFacts(log, tx, false) <= before && TxFacts(log, tx, true) !! before
    && now == before - TxFacts(log, tx, false) + TxFacts(log, tx, true)
  }

  lemma {:induction false} AdditionsDoNotClash(schema: Schema, before: set<Fact>, d: Causets, log: seq<LogRow>,
      tx: int, txn: Txn, instant: Fact)
    requires Invariant(schema, d) && StepBetween(schema, before, View(d), log, tx)
    requires NoEntity(before, txn.tx) && Reverses(schema, log, tx, txn, instant)
    ensures UniqueInexact(txn.inexact)
  {
    forall i, j | 0 <= i < j < |txn.inexact| && txn.inexact[i].added && txn.inexact[j].added &&
                  txn.inexact[i].fact.e == txn.inexact[j].fact.e && txn.inexact[i].fact.a == txn.inexact[j].fact.a
      ensures false
    {
      var f, g := txn.inexact[i].fact, txn.inexact[j].fact;
      assert Mentions(txn.inexact, f, true) && Mentions(txn.inexact, g, true);
      assert Asserted(txn, f) && Asserted(txn, g);
    }
  }

  lemma {:induction false} SearchesDoNotClash(schema: Schema, d: Causets, txn: Txn)
    requires Invariant(schema, d) && Routed(schema, txn)
    requires DistinctFacts(txn.exact) && DistinctFacts(txn.inexact)
    ensures UniqueResults(SearchResults(txn.exact, txn.inexact, d))
  {
    var rs := SearchResults(txn.exact, txn.inexact, d);
    forall r, s | r in rs && s in rs && r.t.fact == s.t.fact ensures r == s {
      ResultMeaning(schema, d, txn, r);
      ResultMeaning(schema, d, txn, s);
      SameSearch(txn, d, r, s);
      SameHit(schema, d, r, s);
    }
  }

  lemma {:induction false} SameSearch(txn: Txn, d: Causets, r: SearchResult, s: SearchResult)
    requires DistinctFacts(txn.exact) && DistinctFacts(txn.inexact)
    requires r in SearchResults(txn.exact, txn.inexact, d) && s in SearchResults(txn.exact, txn.inexact, d)
    requires r.kind == s.kind && r.t.fact == s.t.fact
    ensures r.index == s.index && r.t == s.t
  {
    var ts := if r.kind.Exact? then txn.exact else txn.inexact;
    assert r.index < |ts| && ts[r.index] == r.t && s.index < |ts| && ts[s.index] == s.t;
  }

  lemma {:induction false} SameHit(schema: Schema, d: Causets, r: SearchResult, s: SearchResult)
    requires Invariant(schema, d)
    requires r.kind == s.kind && r.t.fact == s.t.fact && r.t.fact.a in schema
    requires schema[r.t.fact.a].multival <==> r.kind.Exact?
    requires r.hit.Some? ==> r.hit.value.rid in d && d[r.hit.value.rid].fact == HitFact(r)
    requires s.hit.Some? ==> s.hit.value.rid in d && d[s.hit.value.rid].fact == HitFact(s)
    requires r.hit.Some? && r.kind.Exact? ==> HitFact(r) == r.t.fact
    requires s.hit.Some? && s.kind.Exact? ==> HitFact(s) == s.t.fact
    requires r.hit.None? ==> forall rid | rid in d :: !Joins(r.kind, r.t, d[rid])
    requires s.hit.None? ==> forall rid | rid in d :: !Joins(s.kind, s.t, d[rid])
    ensures r.hit == s.hit
  {
  }

  /** The indexes over searches and their results never refuse a rewind. */
  lemma {:induction false} RewindIsGuarded(schema: Schema, before: set<Fact>, d: Causets, log: seq<LogRow>, tx: int,
      txn: Txn, instant: Fact)
    requires Invariant(schema, d) && StepBetween(schema, before, View(d), log, tx)
    requires NoEntity(before, txn.tx) && Reverses(schema, log, tx, txn, instant)
    ensures Guarded(schema, d, txn)
  {
    AdditionsDoNotClash(schema, before, d, log, tx, txn, instant);
    SearchesDoNotClash(schema, d, txn);
  }

  // ---------- the index over unique values ----------

  /** A row that a rewind keeps was there before the transaction it undoes. */
  lemma {:induction false} KeptRow(schema: Schema, before: set<Fact>, d: Causets, log: seq<LogRow>, tx: int, txn: Txn,
      instant: Fact, row: CausetRow)
    requires Guarded(schema, d, txn) && StepBetween(schema, before, View(d), log, tx)
    requires Reverses(schema, log, tx, txn, instant)
    requires row in Rows(Without(d, RetractedIds(SearchResults(txn.exact, txn.inexact, d))))
    ensures row.fact in before && exists rid :: rid in d && d[rid] == row
  {
    var rs := SearchResults(txn.exact, txn.inexact, d);
    var kept := Without(d, RetractedIds(rs));
    var rid :| rid in kept && kept[rid] == row;
    DeletedView(schema, d, txn);
    assert kept[rid].fact in View(kept);
    RetractedExactly(schema, d, txn, row.fact);
  }

  lemma {:induction false} AddedRow(schema: Schema, before: set<Fact>, d: Causets, log: seq<LogRow>, tx: int, txn: Txn,
      instant: Fact, r: SearchResult)
    requires Guarded(schema, d, txn) && StepBetween(schema, before, View(d), log, tx)
    requires Reverses(schema, log, tx, txn, instant)
    requires r in Additions(SearchResults(txn.exact, txn.inexact, d))
    ensures r.t.fact in before || r.t.fact == instant
  {
    AddedExactly(schema, d, txn, r.t.fact);
    assert r in SearchResults(txn.exact, txn.inexact, d) && IsAddition(r);
  }

  /** What a rewind leaves: rows of the table before the undone transaction, and its own instant. */
  lemma {:induction false} RewindTarget(schema: Schema, before: set<Fact>, d: Causets, log: seq<LogRow>, tx: int,
      txn: Txn, instant: Fact, row: CausetRow)
    requires Guarded(schema, d, txn) && StepBetween(schema, before, View(d), log, tx)
    requires Reverses(schema, log, tx, txn, instant)
    requires row in Target(d, SearchResults(txn.exact, txn.inexact, d), txn.tx)
    ensures row.fact in before || row.fact == instant
  {
    var rs := SearchResults(txn.exact, txn.inexact, d);
    if row in Rows(Without(d, RetractedIds(rs))) {
      KeptRow(schema, before, d, log, tx, txn, instant, row);
    } else {
      var r :| r in Additions(rs) && row == NewRow(r, txn.tx);
      AddedRow(schema, before, d, log, tx, txn, instant, r);
    }
  }

  /** The schema's attributes are all marked, and the instant's is not unique. */
  ghost predicate MarksSchema(marks: Marks, schema: Schema, instant: Fact) {
    schema.Keys <= marks.Keys && (instant.a in marks ==> !marks[instant.a])
  }

  /** No unique index refuses a rewind, the index over unique values included. */
  lemma {:induction false} RewindIsAccepted(schema: Schema, before: set<Fact>, d: Causets, log: seq<LogRow>, tx: int,
      txn: Txn, instant: Fact, marks: Marks)
    requires Invariant(schema, d) && StepBetween(schema, before, View(d), log, tx)
    requires NoEntity(before, txn.tx) && Reverses(schema, log, tx, txn, instant)
    requires MarksSchema(marks, schema, instant) && MarkedRows(marks, Rows(d)) && MarkedTxn(marks, txn)
    requires UniqueValues(marks, before)
    ensures Acceptable(d, txn)
  {
    RewindIsGuarded(schema, before, d, log, tx, txn, instant);
    TargetMarked(marks, d, txn);
    var target := Target(d, SearchResults(txn.exact, txn.inexact, d), txn.tx);
    forall x, y | x in target && y in target && SameUniqueValue(x, y) ensures x.fact == y.fact {
      RewindTarget(schema, before, d, log, tx, txn, instant, x);
      RewindTarget(schema, before, d, log, tx, txn, instant, y);
    }
  }

  // ---------- what a rewind does ----------

  lemma {:induction false} RewindDelta(schema: Schema, before: set<Fact>, d: Causets, log: seq<LogRow>, tx: int,
      txn: Txn, instant: Fact)
    requires Invariant(schema, d) && StepBetween(schema, before, View(d), log, tx)
    requires NoEntity(before, txn.tx) && NoEntity(View(d), txn.tx)
    requires Reverses(schema, log, tx, txn, instant)
    ensures var rs := SearchResults(txn.exact, txn.inexact, d);
            && RetractedFacts(rs) == TxFacts(log, tx, true)
            && AddedFacts(rs) == TxFacts(log, tx, false) + {instant}
  {
    RewindIsGuarded(schema, before, d, log, tx, txn, instant);
    var rs := SearchResults(txn.exact, txn.inexact, d);
    forall f ensures f in AddedFacts(rs) <==> f in TxFacts(log, tx, false) + {instant} {
      AddedExactly(schema, d, txn, f);
    }
    forall g ensures g in RetractedFacts(rs) <==> g in TxFacts(log, tx, true) {
      RetractedExactly(schema, d, txn, g);
      if g in View(d) && SlotRetracted(txn, g) {
        var i :| 0 <= i < |txn.inexact| && !txn.inexact[i].added && SameSlot(txn.inexact[i], g);
        assert Mentions(txn.inexact, txn.inexact[i].fact, false);
        assert Named(txn, txn.inexact[i].fact);
      }
      if g in View(d) && Replaced(txn, g) {
        var i :| 0 <= i < |txn.inexact| && txn.inexact[i].added && SameSlot(txn.inexact[i], g) &&
            txn.inexact[i].fact.v != g.v;
        assert Mentions(txn.inexact, txn.inexact[i].fact, true);
        assert Asserted(txn, txn.inexact[i].fact);
      }
    }
  }

  function DeleteEntity(d: Causets, e: int): Causets {
    map rid | rid in d && d[rid].fact.e != e :: d[rid]
  }

  /** One pass of the loop that moves transactions off the main timeline. */
  ghost predicate Rewound(schema: Schema, log: seq<LogRow>, tx: int, d: Causets, d': Causets, txn: Txn,
      instant: Fact, mid: Causets) {
    && Reverses(schema, log, tx, txn, instant)
    && Materialized(schema, d, txn, mid)
    && d' == DeleteEntity(mid, txn.tx)
  }

  lemma {:induction false} DeleteEntityView(schema: Schema, d: Causets, e: int)
    requires Invariant(schema, d)
    ensures Invariant(schema, DeleteEntity(d, e))
    ensures forall f :: f in View(DeleteEntity(d, e)) <==> f in View(d) && f.e != e
  {
    var d' := DeleteEntity(d, e);
    forall f | f in View(d) && f.e != e ensures f in View(d') {
      var rid :| rid in d && d[rid].fact == f;
      assert rid in d';
    }
  }

  /** Rewinding a transaction restores the table it started from. */
  lemma {:induction false} RewindRestores(schema: Schema, before: set<Fact>, log: seq<LogRow>, tx: int, d: Causets,
      d': Causets, txn: Txn, instant: Fact, mid: Causets)
    requires Invariant(schema, d) && StepBetween(schema, before, View(d), log, tx)
    requires NoEntity(before, txn.tx) && NoEntity(View(d), txn.tx)
    requires Rewound(schema, log, tx, d, d', txn, instant, mid)
    ensures Invariant(schema, d') && View(d') == before
  {
    RewindDelta(schema, before, d, log, tx, txn, instant);
    MaterializedView(schema, d, txn, mid);
    CardinalityKept(schema, d, txn, mid);
    DeleteEntityView(schema, mid, txn.tx);
    assert View(mid) == before + {instant};
  }

  // ---------- a whole suffix ----------

  /** One rewinding pass: the table it leaves, the transaction it ran and the table in between. */
  datatype Pass = Pass(txn: Txn, instant: Fact, mid: Causets, after: Causets)

  ghost function TableAt(d: Causets, passes: seq<Pass>, p: nat): Causets
    requires p <= |passes|
  {
    if p == 0 then d else passes[p - 1].after
  }

  ghost predicate PassAt(schema: Schema, log: seq<LogRow>, ids: seq<int>, d: Causets, passes: seq<Pass>, p: nat)
    requires p < |passes| <= |ids|
  {
    Rewound(schema, log, ids[|ids| - 1 - p], TableAt(d, passes, p), passes[p].after, passes[p].txn, passes[p].instant,
        passes[p].mid)
  }

  /** Each pass allocates an id that no fact of the run is about. */
  ghost predicate FreshPasses(dbs: seq<Db>, passes: seq<Pass>) {
    forall p, k | 0 <= p < |passes| && 0 <= k < |dbs| :: NoEntity(View(dbs[k].causets), passes[p].txn.tx)
  }

  lemma {:induction false} StepBetweenAt(schema: Schema, dbs: seq<Db>, txns: seq<Txn>, k: nat)
    requires Run(schema, dbs, txns) && k < |txns|
    ensures StepBetween(schema, View(dbs[k].causets), View(dbs[k + 1].causets), dbs[|txns|].log, txns[k].tx)
  {
    StepFromFinalLog(schema, dbs, txns, k, |txns|);
    RunInvariant(schema, dbs, txns, k);
  }

  lemma {:induction false} PassRestores(schema: Schema, before: set<Fact>, log: seq<LogRow>, ids: seq<int>,
      d: Causets, passes: seq<Pass>, q: nat)
    requires q < |passes| <= |ids| && PassAt(schema, log, ids, d, passes, q)
    requires Invariant(schema, TableAt(d, passes, q))
    requires StepBetween(schema, before, View(TableAt(d, passes, q)), log, ids[|ids| - 1 - q])
    requires NoEntity(before, passes[q].txn.tx) && NoEntity(View(TableAt(d, passes, q)), passes[q].txn.tx)
    ensures Invariant(schema, TableAt(d, passes, q + 1)) && View(TableAt(d, passes, q + 1)) == before
  {
    var pass := passes[q];
    RewindRestores(schema, before, log, ids[|ids| - 1 - q], TableAt(d, passes, q), pass.after, pass.txn, pass.instant,
        pass.mid);
  }

  ghost predicate AllPasses(schema: Schema, log: seq<LogRow>, ids: seq<int>, d: Causets, passes: seq<Pass>) {
    |passes| <= |ids| && forall q | 0 <= q < |passes| :: PassAt(schema, log, ids, d, passes, q)
  }

  /** After rewinding the last p transactions, newest first, the table is the one the run had
      before them. */
  lemma {:induction false} RewindSuffixRestores(schema: Schema, dbs: seq<Db>, txns: seq<Txn>, passes: seq<Pass>, p: nat)
    requires Run(schema, dbs, txns) && p <= |passes|
    requires FreshPasses(dbs, passes)
    requires AllPasses(schema, dbs[|txns|].log, Ids(txns), dbs[|txns|].causets, passes)
    ensures var d := TableAt(dbs[|txns|].causets, passes, p);
            Invariant(schema, d) && View(d) == View(dbs[|txns| - p].causets)
    decreases p
  {
    var n := |txns|;
    if p == 0 {
      RunInvariant(schema, dbs, txns, n);
    } else {
      var q, k := p - 1, n - p;
      RewindSuffixRestores(schema, dbs, txns, passes, q);
      StepBetweenAt(schema, dbs, txns, k);
      assert PassAt(schema, dbs[n].log, Ids(txns), dbs[n].causets, passes, q);
      PassRestores(schema, View(dbs[k].causets), dbs[n].log, Ids(txns), dbs[n].causets, passes, q);
    }
  }

  // ---------- no pass is refused ----------

  ghost predicate MarkedPasses(marks: Marks, passes: seq<Pass>) {
    forall p | 0 <= p < |passes| :: MarkedTxn(marks, passes[p].txn)
  }

  /** The tables in between stay marked. */
  lemma {:induction false} PassesMarked(schema: Schema, marks: Marks, log: seq<LogRow>, ids: seq<int>, d: Causets,
      passes: seq<Pass>, p: nat)
    requires AllPasses(schema, log, ids, d, passes) && p <= |passes|
    requires MarkedRows(marks, Rows(d)) && MarkedPasses(marks, passes)
    ensures MarkedRows(marks, Rows(TableAt(d, passes, p)))
    decreases p
  {
    if p > 0 {
      var q := p - 1;
      PassesMarked(schema, marks, log, ids, d, passes, q);
      assert PassAt(schema, log, ids, d, passes, q);
      UpdateMarked(marks, TableAt(d, passes, q), passes[q].txn, passes[q].mid);
      forall row | row in Rows(passes[q].after) ensures row in Rows(passes[q].mid) {
        var rid :| rid in passes[q].after && passes[q].after[rid] == row;
        assert passes[q].mid[rid] == row;
      }
    }
  }

  /** Passes that undo the newest transactions of a run of accepted ones. */
  ghost predicate Rewinding(schema: Schema, marks: Marks, dbs: seq<Db>, txns: seq<Txn>, passes: seq<Pass>) {
    && AcceptedRun(schema, marks, dbs, txns)
    && FreshPasses(dbs, passes) && MarkedPasses(marks, passes)
    && AllPasses(schema, dbs[|txns|].log, Ids(txns), dbs[|txns|].causets, passes)
  }

  lemma {:induction false} RewoundTable(schema: Schema, marks: Marks, dbs: seq<Db>, txns: seq<Txn>, passes: seq<Pass>,
      k: nat)
    requires Rewinding(schema, marks, dbs, txns, passes) && k + |passes| == |txns|
    ensures var d := TableAt(dbs[|txns|].causets, passes, |passes|);
            Invariant(schema, d) && View(d) == View(dbs[k].causets)
  {
    RewindSuffixRestores(schema, dbs, txns, passes, |passes|);
  }

  lemma {:induction false} RewoundMarked(schema: Schema, marks: Marks, dbs: seq<Db>, txns: seq<Txn>, passes: seq<Pass>)
    requires Rewinding(schema, marks, dbs, txns, passes)
    ensures MarkedRows(marks, Rows(TableAt(dbs[|txns|].causets, passes, |passes|)))
  {
    var n := |txns|;
    RunIsUnique(schema, marks, dbs, txns, n);
    PassesMarked(schema, marks, dbs[n].log, Ids(txns), dbs[n].causets, passes, |passes|);
  }

  /** The tables before and after a transaction of the run, as the next pass needs them. */
  ghost predicate ReadyToRewind(schema: Schema, marks: Marks, before: set<Fact>, d: Causets, log: seq<LogRow>,
      tx: int) {
    && Invariant(schema, d) && StepBetween(schema, before, View(d), log, tx)
    && MarkedRows(marks, Rows(d)) && UniqueValues(marks, before)
  }

  lemma {:induction false} NextIsReady(schema: Schema, marks: Marks, dbs: seq<Db>, txns: seq<Txn>, passes: seq<Pass>,
      k: nat)
    requires Rewinding(schema, marks, dbs, txns, passes) && k + 1 + |passes| == |txns|
    ensures ReadyToRewind(schema, marks, View(dbs[k].causets), TableAt(dbs[|txns|].causets, passes, |passes|),
                          dbs[|txns|].log, txns[k].tx)
  {
    RewoundTable(schema, marks, dbs, txns, passes, k + 1);
    RewoundMarked(schema, marks, dbs, txns, passes);
    UniqueBefore(schema, marks, dbs, txns, k);
  }

  lemma {:induction false} UniqueBefore(schema: Schema, marks: Marks, dbs: seq<Db>, txns: seq<Txn>, k: nat)
    requires AcceptedRun(schema, marks, dbs, txns) && k < |txns|
    ensures UniqueValues(marks, View(dbs[k].causets))
    ensures StepBetween(schema, View(dbs[k].causets), View(dbs[k + 1].causets), dbs[|txns|].log, txns[k].tx)
  {
    RunIsUnique(schema, marks, dbs, txns, k);
    StepBetweenAt(schema, dbs, txns, k);
  }

  lemma {:induction false} ReadyIsAccepted(schema: Schema, marks: Marks, before: set<Fact>, d: Causets,
      log: seq<LogRow>, tx: int, txn: Txn, instant: Fact)
    requires ReadyToRewind(schema, marks, before, d, log, tx)
    requires NoEntity(before, txn.tx) && Reverses(schema, log, tx, txn, instant)
    requires MarksSchema(marks, schema, instant) && MarkedTxn(marks, txn)
    ensures Acceptable(d, txn)
  {
    RewindIsAccepted(schema, before, d, log, tx, txn, instant, marks);
  }

  /** For every run of accepted transactions: after any number of passes that undid its newest
      transactions, the reversed terms of the next one, the k-th of the run, are accepted. */
  lemma {:induction false} NextPassIsAccepted(schema: Schema, marks: Marks, dbs: seq<Db>, txns: seq<Txn>,
      passes: seq<Pass>, k: nat, txn: Txn, instant: Fact)
    requires Rewinding(schema, marks, dbs, txns, passes) && k + 1 + |passes| == |txns|
    requires Reverses(schema, dbs[|txns|].log, txns[k].tx, txn, instant) && NoEntity(View(dbs[k].causets), txn.tx)
    requires MarksSchema(marks, schema, instant) && MarkedTxn(marks, txn)
    ensures Acceptable(TableAt(dbs[|txns|].causets, passes, |passes|), txn)
  {
    var n := |txns|;
    NextIsReady(schema, marks, dbs, txns, passes, k);
    ReadyIsAccepted(schema, marks, View(dbs[k].causets), TableAt(dbs[n].causets, passes, |passes|), dbs[n].log,
                    txns[k].tx, txn, instant);
  }

  // ---------- the log that stays ----------

  /** The rows of the main timeline once the given transactions are moved off it. */
  ghost function Remaining(log: seq<LogRow>, moved: set<int>): seq<LogRow> {
    if log == [] then []
    else (if log[0].tx in moved then [] else [log[0]]) + Remaining(log[1..], moved)
  }

  lemma {:induction false} RemainingRows(log: seq<LogRow>, moved: set<int>, row: LogRow)
    ensures row in Remaining(log, moved) <==> row in log && row.tx !in moved
  {
    if log != [] {
      RemainingRows(log[1..], moved, row);
    }
  }

  lemma {:induction false} RemainingFacts(log: seq<LogRow>, moved: set<int>, tx: int, added: bool)
    requires tx !in moved
    ensures TxFacts(Remaining(log, moved), tx, added) == TxFacts(log, tx, added)
  {
    var rest := Remaining(log, moved);
    forall f ensures f in TxFacts(rest, tx, added) <==> f in TxFacts(log, tx, added) {
      FactIsLogged(rest, tx, added, f);
      FactIsLogged(log, tx, added, f);
      RemainingRows(log, moved, LogRow(f, tx, added));
    }
  }

  lemma {:induction false} FactIsLogged(log: seq<LogRow>, tx: int, added: bool, f: Fact)
    ensures f in TxFacts(log, tx, added) <==> LogRow(f, tx, added) in log
  {
  }

  lemma {:induction false} RemainingReplays(log: seq<LogRow>, moved: set<int>, ids: seq<int>)
    requires forall i | 0 <= i < |ids| :: ids[i] !in moved
    ensures Replay(Remaining(log, moved), ids) == Replay(log, ids)
    decreases |ids|
  {
    if ids != [] {
      var n := |ids| - 1;
      RemainingReplays(log, moved, ids[..n]);
      RemainingFacts(log, moved, ids[n], true);
      RemainingFacts(log, moved, ids[n], false);
    }
  }

  /** After the newest p transactions are moved off the main timeline, what is left of its log replays to
      the table the passes leave. */
  lemma {:induction false} RemainingLogReplays(schema: Schema, dbs: seq<Db>, txns: seq<Txn>, passes: seq<Pass>, p: nat)
    requires Run(schema, dbs, txns) && p <= |passes| && FreshPasses(dbs, passes)
    requires AllPasses(schema, dbs[|txns|].log, Ids(txns), dbs[|txns|].causets, passes)
    ensures var n, ids := |txns|, Ids(txns);
            var moved := set i | n - p <= i < n :: ids[i];
            Replay(Remaining(dbs[n].log, moved), ids[..n - p]) == View(TableAt(dbs[n].causets, passes, p))
  {
    var n, ids := |txns|, Ids(txns);
    var moved := set i | n - p <= i < n :: ids[i];
    RewindSuffixRestores(schema, dbs, txns, passes, p);
    ReplayRebuildsView(schema, dbs, txns, n - p, n);
    RemainingReplays(dbs[n].log, moved, ids[..n - p]);
  }
}
