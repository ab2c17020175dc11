/** Which attributes are unique: rows and search rows carry the mark of their attribute, and accepted
    transactions keep marked values unique over every run. */
module TransactorMarks {
  import opened Transactor
  import opened TransactorStore

  // Whether an attribute is unique; attributes outside the map may be marked in any way.
  type Marks = map<int, bool>

  ghost predicate MarkedRows(marks: Marks, rows: set<CausetRow>) {
    forall row | row in rows && row.fact.a in marks :: row.flags.unique == marks[row.fact.a]
  }

  ghost predicate MarkedTerms(marks: Marks, ts: seq<SearchRow>) {
    forall i | 0 <= i < |ts| && ts[i].fact.a in marks :: ts[i].flags.unique == marks[ts[i].fact.a]
  }

  ghost predicate MarkedTxn(marks: Marks, txn: Txn) {
    MarkedTerms(marks, txn.exact) && MarkedTerms(marks, txn.inexact)
  }

  /** No unique index refuses the transaction, and its searches are marked by their attributes. */
  ghost predicate Accepted(marks: Marks, d: Causets, txn: Txn) {
    Acceptable(d, txn) && MarkedTxn(marks, txn)
  }

  ghost predicate Indexed(marks: Marks, d: Causets) {
    UniqueValueIndex(Rows(d)) && MarkedRows(marks, Rows(d))
  }

  ghost predicate UniqueValues(marks: Marks, fs: set<Fact>) {
    forall f, g | f in fs && g in fs && f.a in marks && marks[f.a] && f.a == g.a && f.tag == g.tag && f.v == g.v ::
        f == g
  }

  lemma {:induction false} ResultMarked(marks: Marks, d: Causets, txn: Txn, r: SearchResult)
    requires r in SearchResults(txn.exact, txn.inexact, d) && r.t.fact.a in marks && MarkedTxn(marks, txn)
    ensures r.t.flags.unique == marks[r.t.fact.a]
  {
    if r in LeftJoin(Exact, txn.exact, d) {
      assert r.t == txn.exact[r.index];
    } else {
      assert r.t == txn.inexact[r.index];
    }
  }

  /** A row that a transaction leaves is one it kept or one of its search rows. */
  lemma {:induction false} TargetMarked(marks: Marks, d: Causets, txn: Txn)
    requires MarkedRows(marks, Rows(d)) && MarkedTxn(marks, txn)
    ensures MarkedRows(marks, Target(d, SearchResults(txn.exact, txn.inexact, d), txn.tx))
  {
    var rs := SearchResults(txn.exact, txn.inexact, d);
    var kept := Without(d, RetractedIds(rs));
    forall row | row in Target(d, rs, txn.tx) && row.fact.a in marks ensures row.flags.unique == marks[row.fact.a] {
      if row in Rows(kept) {
        var rid :| rid in kept && kept[rid] == row;
        assert d[rid] in Rows(d);
      } else {
        var r :| r in Additions(rs) && row == NewRow(r, txn.tx);
        ResultMarked(marks, d, txn, r);
      }
    }
  }

  lemma {:induction false} UpdateMarked(marks: Marks, d: Causets, txn: Txn, d': Causets)
    requires CausetsUpdated(d, SearchResults(txn.exact, txn.inexact, d), txn.tx, d')
    requires MarkedRows(marks, Rows(d)) && MarkedTxn(marks, txn)
    ensures MarkedRows(marks, Rows(d'))
  {
    UpdatedRows(d, SearchResults(txn.exact, txn.inexact, d), txn.tx, d');
    TargetMarked(marks, d, txn);
  }

  /** A transaction that the indexes accept leaves the index over unique values intact. */
  lemma {:induction false} IndexKept(schema: Schema, marks: Marks, d: Causets, txn: Txn, d': Causets)
    requires Materialized(schema, d, txn, d') && Accepted(marks, d, txn) && MarkedRows(marks, Rows(d))
    ensures Indexed(marks, d')
  {
    UpdatedRows(d, SearchResults(txn.exact, txn.inexact, d), txn.tx, d');
    TargetMarked(marks, d, txn);
  }

  ghost predicate AcceptedRun(schema: Schema, marks: Marks, dbs: seq<Db>, txns: seq<Txn>) {
    Run(schema, dbs, txns) && forall i | 0 <= i < |txns| :: Accepted(marks, dbs[i].causets, txns[i])
  }

  /** Every table of every run of accepted transactions satisfies the index. */
  lemma {:induction false} RunIndexed(schema: Schema, marks: Marks, dbs: seq<Db>, txns: seq<Txn>, k: nat)
    requires AcceptedRun(schema, marks, dbs, txns) && k < |dbs|
    ensures Indexed(marks, dbs[k].causets)
  {
    if k > 0 {
      var i := k - 1;
      RunIndexed(schema, marks, dbs, txns, i);
      assert StepAt(schema, dbs, txns, i) && Accepted(marks, dbs[i].causets, txns[i]);
      IndexKept(schema, marks, dbs[i].causets, txns[i], dbs[i + 1].causets);
    }
  }

  /** The index makes the values of attributes marked unique unique. */
  lemma {:induction false} IndexedIsUnique(marks: Marks, d: Causets)
    requires Indexed(marks, d)
    ensures UniqueValues(marks, View(d))
  {
    forall f, g | f in View(d) && g in View(d) && f.a in marks && marks[f.a] && f.a == g.a && f.tag == g.tag &&
        f.v == g.v
      ensures f == g
    {
      var i :| i in d && d[i].fact == f;
      var j :| j in d && d[j].fact == g;
      assert d[i] in Rows(d) && d[j] in Rows(d);
      assert SameUniqueValue(d[i], d[j]);
    }
  }

  lemma {:induction false} RunIsUnique(schema: Schema, marks: Marks, dbs: seq<Db>, txns: seq<Txn>, k: nat)
    requires AcceptedRun(schema, marks, dbs, txns) && k < |dbs|
    ensures UniqueValues(marks, View(dbs[k].causets)) && MarkedRows(marks, Rows(dbs[k].causets))
  {
    RunIndexed(schema, marks, dbs, txns, k);
    IndexedIsUnique(marks, dbs[k].causets);
  }
}
