/** Where the rows of the fact table come from: each stems from a search row of the transaction that
    last added its fact, and carries that transaction's id and that search row's flags. */
module TransactorOrigins {
  import opened Transactor
  import opened TransactorIntent
  import opened LookupRefs

  ghost predicate Searches(txn: Txn, t: SearchRow) {
    t in txn.exact || t in txn.inexact
  }

  /** The row holds a search row that asserts its fact, under the id of the transaction. */
  ghost predicate Stems(txn: Txn, t: SearchRow, row: CausetRow) {
    Searches(txn, t) && t.added && row.fact == t.fact && row.tx == txn.tx && row.flags == t.flags
  }

  lemma {:induction false} ResultSearched(d: Causets, txn: Txn, r: SearchResult)
    requires r in SearchResults(txn.exact, txn.inexact, d)
    ensures Searches(txn, r.t)
  {
    if r in LeftJoin(Exact, txn.exact, d) {
      assert r.t == txn.exact[r.index];
    } else {
      assert r.t == txn.inexact[r.index];
    }
  }

  /** A row with a new id stems from the transaction; a row with an old id is as it was. */
  lemma {:induction false} NewRowStems(schema: Schema, d: Causets, txn: Txn, d': Causets, rid: nat)
      returns (t: SearchRow)
    requires Materialized(schema, d, txn, d') && rid in d' && rid !in d
    ensures Stems(txn, t, d'[rid]) && t.fact in AddedFacts(SearchResults(txn.exact, txn.inexact, d))
  {
    var rs := SearchResults(txn.exact, txn.inexact, d);
    var inserted: map<nat, SearchResult> :| UpdatedBy(d, rs, txn.tx, inserted, d');
    assert rid in inserted;
    var r := inserted[rid];
    assert r in inserted.Values && r in Additions(rs);
    ResultSearched(d, txn, r);
    t := r.t;
  }

  lemma {:induction false} OldRowStays(schema: Schema, d: Causets, txn: Txn, d': Causets, rid: nat)
    requires Materialized(schema, d, txn, d') && rid in d' && rid in d
    ensures d'[rid] == d[rid]
  {
  }

  // ---------- runs ----------

  /** The j-th transaction wrote the row, and none after it up to the k-th added or retracted its fact. */
  ghost predicate Origin(log: seq<LogRow>, txns: seq<Txn>, k: nat, row: CausetRow, j: nat, t: SearchRow)
    requires j < k <= |txns|
  {
    && Stems(txns[j], t, row) && row.fact in TxFacts(log, txns[j].tx, true)
    && forall i, added | j < i < k :: row.fact !in TxFacts(log, txns[i].tx, added)
  }

  /** A row that a transaction of the run leaves in place holds a fact it neither added nor retracted. */
  lemma {:induction false} StepPasses(schema: Schema, dbs: seq<Db>, txns: seq<Txn>, i: nat, rid: nat)
    requires Run(schema, dbs, txns) && i < |txns| && rid in dbs[i].causets && rid in dbs[i + 1].causets
    ensures dbs[i + 1].causets[rid] == dbs[i].causets[rid]
    ensures forall added :: dbs[i].causets[rid].fact !in TxFacts(dbs[|txns|].log, txns[i].tx, added)
  {
    assert StepAt(schema, dbs, txns, i);
    OldRowStays(schema, dbs[i].causets, txns[i], dbs[i + 1].causets, rid);
    StaysUntouched(dbs[i].causets, dbs[i + 1].causets, rid);
    StepFromFinalLog(schema, dbs, txns, i, |txns|);
  }

  lemma {:induction false} StepStems(schema: Schema, dbs: seq<Db>, txns: seq<Txn>, i: nat, rid: nat)
      returns (t: SearchRow)
    requires Run(schema, dbs, txns) && i < |txns| && rid !in dbs[i].causets && rid in dbs[i + 1].causets
    ensures Stems(txns[i], t, dbs[i + 1].causets[rid]) && t.fact in TxFacts(dbs[|txns|].log, txns[i].tx, true)
  {
    assert StepAt(schema, dbs, txns, i);
    t := NewRowStems(schema, dbs[i].causets, txns[i], dbs[i + 1].causets, rid);
    AddedIsLogged(schema, dbs, txns, i, t.fact);
  }

  /** For every run, the id of a stored row is that of the latest transaction whose log rows add its
      fact, and its flags are those which that transaction searched with. */
  lemma {:induction false} RowOrigin(schema: Schema, dbs: seq<Db>, txns: seq<Txn>, k: nat, rid: nat)
      returns (j: nat, t: SearchRow)
    requires Run(schema, dbs, txns) && k < |dbs| && rid in dbs[k].causets
    ensures j < k && Origin(dbs[|txns|].log, txns, k, dbs[k].causets[rid], j, t)
    decreases k
  {
    var i := k - 1;
    if rid in dbs[i].causets {
      j, t := RowOrigin(schema, dbs, txns, i, rid);
      StepPasses(schema, dbs, txns, i, rid);
    } else {
      t := StepStems(schema, dbs, txns, i, rid);
      j := i;
    }
  }

  lemma {:induction false} StaysUntouched(d: Causets, d': Causets, rid: nat)
    requires rid in d && rid in d' && d'[rid] == d[rid]
    ensures d[rid].fact in View(d) && d[rid].fact in View(d')
  {
  }

  lemma {:induction false} AddedIsLogged(schema: Schema, dbs: seq<Db>, txns: seq<Txn>, i: nat, f: Fact)
    requires Run(schema, dbs, txns) && i < |txns|
    requires f in AddedFacts(SearchResults(txns[i].exact, txns[i].inexact, dbs[i].causets))
    ensures f in TxFacts(dbs[|txns|].log, txns[i].tx, true)
  {
    assert StepAt(schema, dbs, txns, i);
    LoggedDelta(dbs[i].log, SearchResults(txns[i].exact, txns[i].inexact, dbs[i].causets), txns[i].tx, dbs[i + 1].log);
    if i + 1 < |txns| {
      LogStable(schema, dbs, txns, i, |txns|);
    }
  }

  // ---------- lookups ----------

  lemma {:induction false} OneSearchPerFact(d: Causets, txn: Txn, t: SearchRow, u: SearchRow)
    requires UniqueResults(SearchResults(txn.exact, txn.inexact, d))
    requires Searches(txn, t) && Searches(txn, u) && t.fact == u.fact
    ensures t == u
  {
    var r := SearchOf(d, txn, t);
    var s := SearchOf(d, txn, u);
  }

  lemma {:induction false} SearchOf(d: Causets, txn: Txn, t: SearchRow) returns (r: SearchResult)
    requires Searches(txn, t)
    ensures r in SearchResults(txn.exact, txn.inexact, d) && r.t == t
  {
    if t in txn.exact {
      var i :| 0 <= i < |txn.exact| && txn.exact[i] == t;
      r := ResultOf(Exact, txn.exact, d, i);
    } else {
      var i :| 0 <= i < |txn.inexact| && txn.inexact[i] == t;
      r := ResultOf(Inexact, txn.inexact, d, i);
    }
  }

  /** A fact that a transaction adds resolves afterwards if and only if it was searched with the flag. */
  lemma {:induction false} AssertedResolvesIff(schema: Schema, d: Causets, txn: Txn, d': Causets, t: SearchRow)
    requires Invariant(schema, d) && Materialized(schema, d, txn, d')
    requires Searches(txn, t) && t.added && t.fact !in View(d)
    ensures Resolves(d', Av(t.fact.a, t.fact.v, t.fact.tag), t.fact.e) <==> t.flags.avet
  {
    var f := t.fact;
    assert Asserted(txn, f) by {
      if t in txn.exact {
        var i :| 0 <= i < |txn.exact| && txn.exact[i] == t;
      } else {
        var i :| 0 <= i < |txn.inexact| && txn.inexact[i] == t;
      }
    }
    ViewAfter(schema, d, txn, d', f);
    forall rid | rid in d' && d'[rid].fact == f ensures d'[rid].flags == t.flags {
      if rid in d {
        OldRowStays(schema, d, txn, d', rid);
        StaysUntouched(d, d', rid);
        assert false;
      }
      var u := NewRowStems(schema, d, txn, d', rid);
      OneSearchPerFact(d, txn, t, u);
    }
    var rid :| rid in d' && d'[rid].fact == f;
    assert f == Fact(f.e, f.a, f.v, f.tag);
  }

  /** Assertions carry the index flag exactly for the given attributes. */
  ghost predicate FlaggedBy(indexed: set<int>, txns: seq<Txn>) {
    forall i, t | 0 <= i < |txns| && Searches(txns[i], t) && t.added :: t.flags.avet <==> t.fact.a in indexed
  }

  /** At every state of every run, the pairs that resolve are those of stored facts of indexed
      attributes. */
  lemma {:induction false} StoredResolvesIff(schema: Schema, dbs: seq<Db>, txns: seq<Txn>, indexed: set<int>, k: nat,
      av: Av, e: int)
    requires Run(schema, dbs, txns) && k < |dbs| && FlaggedBy(indexed, txns)
    ensures Resolves(dbs[k].causets, av, e) <==> av.a in indexed && Fact(e, av.a, av.v, av.tag) in View(dbs[k].causets)
  {
    var d, f := dbs[k].causets, Fact(e, av.a, av.v, av.tag);
    forall rid | rid in d && d[rid].fact == f ensures d[rid].flags.avet <==> av.a in indexed {
      var j, t := RowOrigin(schema, dbs, txns, k, rid);
    }
    if f in View(d) && av.a in indexed {
      var rid :| rid in d && d[rid].fact == f;
    }
  }

  /** At every state of every run the chunked lookup finds exactly the pairs of stored facts of indexed
      attributes, each with an entity that has it. */
  method ResolveStored(d: Causets, avs: seq<Av>, maxVars: nat, ghost schema: Schema, ghost dbs: seq<Db>,
      ghost txns: seq<Txn>, ghost indexed: set<int>, ghost k: nat)
    returns (m: map<Av, int>)
    requires maxVars >= BINDINGS_PER_ROW && ChunksFit(|avs|, maxVars)
    requires Run(schema, dbs, txns) && k < |dbs| && FlaggedBy(indexed, txns) && d == dbs[k].causets
    ensures forall av :: av in m <==>
              av in avs && av.a in indexed && exists e :: Fact(e, av.a, av.v, av.tag) in View(d)
    ensures forall av | av in m :: Fact(m[av], av.a, av.v, av.tag) in View(d)
  {
    m := ResolveAvs(d, avs, maxVars);
    forall av: Av, e: int
      ensures Resolves(d, av, e) <==> av.a in indexed && Fact(e, av.a, av.v, av.tag) in View(d)
    {
      StoredResolvesIff(schema, dbs, txns, indexed, k, av, e);
    }
  }
}
