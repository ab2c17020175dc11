/** The store the transactor writes to: its tables, changed in place by one statement at a time. */
module TransactorStore {
  import opened Sorting
  import opened Transactor
  import opened TransactorIntent

  function Rows(d: Causets): set<CausetRow> {
    set rid | rid in d :: d[rid]
  }

  predicate SameUniqueValue(x: CausetRow, y: CausetRow) {
    x.flags.unique && y.flags.unique && x.fact.a == y.fact.a && x.fact.tag == y.fact.tag && x.fact.v == y.fact.v
  }

  /** The index over attributes marked unique: one entity for each attribute, tag and value. */
  ghost predicate UniqueValueIndex(rows: set<CausetRow>) {
    forall x, y | x in rows && y in rows && SameUniqueValue(x, y) :: x.fact == y.fact
  }

  /** One value of a unique attribute at two entities. */
  ghost predicate Clash(x: CausetRow, y: CausetRow) {
    && x.flags.unique && y.flags.unique && x.fact.e != y.fact.e
    && x.fact == Fact(x.fact.e, y.fact.a, y.fact.v, y.fact.tag)
  }

  /** The index refuses a table if and only if a value marked unique stands at two entities. */
  lemma {:induction false} RefusedIffClash(rows: set<CausetRow>)
    ensures UniqueValueIndex(rows) <==> forall x, y | x in rows && y in rows :: !Clash(x, y)
  {
    forall x, y | x in rows && y in rows ensures Clash(x, y) <==> SameUniqueValue(x, y) && x.fact != y.fact {
    }
  }

  /** The rows that a transaction leaves: those it does not retract, and its additions. */
  ghost function Target(d: Causets, rs: set<SearchResult>, tx: int): set<CausetRow> {
    Rows(Without(d, RetractedIds(rs))) + set r | r in Additions(rs) :: NewRow(r, tx)
  }

  /** No unique index refuses the transaction. */
  ghost predicate Acceptable(d: Causets, txn: Txn) {
    var rs := SearchResults(txn.exact, txn.inexact, d);
    UniqueInexact(txn.inexact) && UniqueResults(rs) && UniqueValueIndex(Target(d, rs, txn.tx))
  }

  class Store {
    var causets: Causets
    var nextRow: nat
    var log: seq<LogRow>
    var exact: seq<SearchRow>
    var inexact: seq<SearchRow>
    var results: set<SearchResult>

    ghost predicate Valid()
      reads this
    {
      && UniqueFacts(causets)
      && UniqueValueIndex(Rows(causets))
      && forall rid | rid in causets :: rid < nextRow
    }

    ghost function Current(): Db
      reads this
    {
      Db(causets, log)
    }

    constructor ()
      ensures Valid() && Current() == EMPTY
    {
      causets, nextRow, log := map[], 0, [];
      exact, inexact, results := [], [], {};
    }

    method BeginApplication()
      modifies this`exact, this`inexact, this`results
      ensures exact == [] && inexact == [] && results == {}
    {
      exact, inexact, results := [], [], {};
    }

    method InsertSearches(rows: seq<SearchRow>, kind: SearchType) returns (ok: bool)
      modifies this`exact, this`inexact
      ensures kind.Exact? ==> ok && exact == old(exact) + rows && inexact == old(inexact)
      ensures kind.Inexact? ==> (ok <==> UniqueInexact(old(inexact) + rows)) && exact == old(exact)
      ensures kind.Inexact? && ok ==> inexact == old(inexact) + rows
    {
      if kind.Exact? {
        exact := exact + rows;
        return true;
      }
      ok := UniqueInexact(inexact + rows);
      if ok {
        inexact := inexact + rows;
      }
    }

    method Search() returns (ok: bool)
      modifies this`results
      ensures results == SearchResults(exact, inexact, causets)
      ensures ok <==> UniqueResults(results)
    {
      results := SearchResults(exact, inexact, causets);
      ok := UniqueResults(results);
    }

    /** Deletes by row id, then inserts the additions; the index over unique values may refuse an
        insertion, the index over whole facts never does. */
    method UpdateCausets(tx: int, ghost schema: Schema) returns (ok: bool)
      requires Valid() && results == SearchResults(exact, inexact, causets)
      requires Guarded(schema, causets, Txn(tx, exact, inexact))
      modifies this`causets, this`nextRow
      ensures ok ==> Valid() && CausetsUpdated(old(causets), results, tx, causets)
      ensures ok <==> UniqueValueIndex(Target(old(causets), results, tx))
    {
      ghost var d := causets;
      DeltaIsMinimal(schema, causets, Txn(tx, exact, inexact));
      causets := Without(causets, RetractedIds(results));
      ok := InsertAdditions(tx, d);
    }

    method InsertRow(row: CausetRow)
      requires Valid()
      requires forall rid | rid in causets :: causets[rid].fact != row.fact && !SameUniqueValue(causets[rid], row)
      modifies this`causets, this`nextRow
      ensures Valid() && causets == old(causets)[old(nextRow) := row] && nextRow == old(nextRow) + 1
    {
      InsertUnique(causets, nextRow, row);
      causets := causets[nextRow := row];
      nextRow := nextRow + 1;
    }

    method InsertAddition(r: SearchResult, tx: int, ghost d: Causets, ghost inserted: map<nat, SearchResult>)
      returns (ok: bool, ghost inserted': map<nat, SearchResult>)
      requires Valid() && Inserted(d, results, inserted, tx, causets)
      requires forall rid | rid in d || rid in inserted :: rid < nextRow
      requires UniqueResults(results) && AddedFacts(results) !! View(d)
      requires r in Additions(results) && r !in inserted.Values
      modifies this`causets, this`nextRow
      ensures ok ==> Valid() && Inserted(d, results, inserted', tx, causets)
      ensures ok ==> forall rid | rid in d || rid in inserted' :: rid < nextRow
      ensures ok ==> inserted'.Values == inserted.Values + {r}
      ensures !ok ==> !UniqueValueIndex(Target(d, results, tx))
    {
      if rid :| rid in causets && SameUniqueValue(causets[rid], NewRow(r, tx)) {
        ClashRefuses(d, results, inserted, r, tx, causets, rid);
        return false, inserted;
      }
      InsertStep(d, results, inserted, r, tx, causets, nextRow);
      ok, inserted' := true, inserted[nextRow := r];
      InsertRow(NewRow(r, tx));
    }

    method InsertAdditions(tx: int, ghost d: Causets) returns (ok: bool)
      requires Valid() && Inserted(d, results, map[], tx, causets)
      requires forall rid | rid in d :: rid < nextRow
      requires UniqueResults(results) && AddedFacts(results) !! View(d)
      modifies this`causets, this`nextRow
      ensures ok ==> Valid() && CausetsUpdated(d, results, tx, causets)
      ensures ok <==> UniqueValueIndex(Target(d, results, tx))
    {
      var todo := Additions(results);
      ghost var inserted: map<nat, SearchResult> := map[];
      while todo != {}
        invariant Valid() && Inserted(d, results, inserted, tx, causets)
        invariant forall rid | rid in d || rid in inserted :: rid < nextRow
        invariant todo == Additions(results) - inserted.Values
      {
        var r :| r in todo;
        ok, inserted := InsertAddition(r, tx, d, inserted);
        if !ok {
          return;
        }
        todo := todo - {r};
      }
      assert forall r | r in Additions(results) :: r !in todo;
      assert inserted.Values == Additions(results);
      InsertedRows(d, results, inserted, tx, causets);
      assert UpdatedBy(d, results, tx, inserted, causets);
      ok := true;
    }

    /** Appends the additions, then the retracted facts, each once. */
    method InsertTransaction(tx: int)
      requires UniqueResults(results)
      modifies this`log
      ensures LogAppended(old(log), results, tx, log)
    {
      ghost var start := |log|;
      var adds := set r | r in results && IsAddition(r);
      ghost var added := {};
      while adds != {}
        invariant |log| >= start && log[..start] == old(log)
        invariant adds !! added && adds + added == set r | r in results && IsAddition(r)
        invariant Distinct(log[start..])
        invariant forall row :: row in log[start..] <==> exists r :: r in added && row == LogRow(r.t.fact, tx, true)
      {
        var r :| r in adds;
        assert LogRow(r.t.fact, tx, true) !in log[start..];
        AppendRow(log, start, LogRow(r.t.fact, tx, true));
        log := log + [LogRow(r.t.fact, tx, true)];
        adds, added := adds - {r}, added + {r};
      }
      var gone := RetractedFacts(results);
      ghost var retracted := {};
      while gone != {}
        invariant |log| >= start && log[..start] == old(log)
        invariant gone !! retracted && gone + retracted == RetractedFacts(results)
        invariant Distinct(log[start..])
        invariant forall row :: row in log[start..] <==>
                    row.tx == tx && row.fact in (if row.added then AddedFacts(results) else retracted)
      {
        var f :| f in gone;
        assert LogRow(f, tx, false) !in log[start..];
        AppendRow(log, start, LogRow(f, tx, false));
        log := log + [LogRow(f, tx, false)];
        gone, retracted := gone - {f}, retracted + {f};
      }
    }

    method Materialize(tx: int, ghost schema: Schema) returns (ok: bool)
      requires Valid() && Invariant(schema, causets)
      requires Routed(schema, Txn(tx, exact, inexact)) && UniqueInexact(inexact)
      modifies this`results, this`causets, this`nextRow
      ensures ok <==> Acceptable(old(causets), Txn(tx, exact, inexact))
      ensures ok ==> Valid() && Materialized(schema, old(causets), Txn(tx, exact, inexact), causets)
      ensures ok ==> results == SearchResults(exact, inexact, old(causets))
    {
      ok := Search();
      if ok {
        ok := UpdateCausets(tx, schema);
      }
    }

    /** Fills the search tables; the index over inexact searches may refuse. */
    method LoadSearches(txn: Txn) returns (ok: bool)
      modifies this`exact, this`inexact, this`results
      ensures ok <==> UniqueInexact(txn.inexact)
      ensures ok ==> Txn(txn.tx, exact, inexact) == txn
    {
      BeginApplication();
      ok := InsertSearches(txn.exact, Exact);
      ok := InsertSearches(txn.inexact, Inexact);
      assert [] + txn.exact == txn.exact && [] + txn.inexact == txn.inexact;
    }

    /** One transaction: it succeeds exactly when no unique index refuses it, and a refused
        transaction is rolled back. */
    method Transact(txn: Txn, ghost schema: Schema) returns (ok: bool)
      requires Valid() && Invariant(schema, causets)
      requires Routed(schema, txn) && FreshTx(log, txn.tx)
      modifies this
      ensures Valid() && Invariant(schema, causets)
      ensures ok <==> Acceptable(old(causets), txn)
      ensures ok ==> Committed(schema, old(Current()), txn, Current())
      ensures !ok ==> Current() == old(Current())
    {
      var savedCausets, savedRow := causets, nextRow;
      ok := LoadSearches(txn);
      if ok {
        ok := Materialize(txn.tx, schema);
      }
      if ok {
        CardinalityKept(schema, savedCausets, txn, causets);
        InsertTransaction(txn.tx);
      } else {
        causets, nextRow := savedCausets, savedRow;
      }
    }
  }

  lemma {:induction false} AppendRow(log: seq<LogRow>, start: nat, row: LogRow)
    requires start <= |log|
    ensures (log + [row])[..start] == log[..start]
    ensures (log + [row])[start..] == log[start..] + [row]
  {
  }

  /** Part way through the insertions: the rows that stay and a row for each addition done. */
  ghost predicate Inserted(d: Causets, rs: set<SearchResult>, inserted: map<nat, SearchResult>, tx: int, now: Causets) {
    inserted.Values <= Additions(rs) && Reworked(d, RetractedIds(rs), tx, inserted, now)
  }

  lemma {:induction false} FactIsNew(d: Causets, rs: set<SearchResult>, inserted: map<nat, SearchResult>,
      r: SearchResult, tx: int, now: Causets)
    requires UniqueResults(rs) && AddedFacts(rs) !! View(d)
    requires r in Additions(rs) && r !in inserted.Values
    requires Inserted(d, rs, inserted, tx, now)
    ensures forall rid | rid in now :: now[rid].fact != r.t.fact
  {
    forall rid | rid in now ensures now[rid].fact != r.t.fact {
      if rid in inserted {
        assert inserted[rid] in inserted.Values;
      } else {
        assert d[rid].fact in View(d) && r.t.fact in AddedFacts(rs);
      }
    }
  }

  lemma {:induction false} InsertStep(d: Causets, rs: set<SearchResult>, inserted: map<nat, SearchResult>,
      r: SearchResult, tx: int, now: Causets, newId: nat)
    requires UniqueResults(rs) && AddedFacts(rs) !! View(d)
    requires r in Additions(rs) && r !in inserted.Values
    requires Inserted(d, rs, inserted, tx, now) && newId !in now && newId !in d && newId !in inserted
    ensures Inserted(d, rs, inserted[newId := r], tx, now[newId := NewRow(r, tx)])
    ensures inserted[newId := r].Values == inserted.Values + {r}
    ensures forall rid | rid in now :: now[rid].fact != r.t.fact
  {
    FactIsNew(d, rs, inserted, r, tx, now);
    InsertValue(inserted, newId, r);
  }

  lemma {:induction false} InsertValue<T>(m: map<nat, T>, k: nat, x: T)
    requires k !in m
    ensures m[k := x].Values == m.Values + {x}
  {
    var next := m[k := x];
    forall y | y in m.Values + {x} ensures y in next.Values {
      if y == x {
        assert next[k] == y;
      } else {
        var j :| j in m && m[j] == y;
        assert next[j] == y;
      }
    }
  }

  lemma {:induction false} InsertUnique(d: Causets, k: nat, row: CausetRow)
    requires k !in d && UniqueFacts(d) && UniqueValueIndex(Rows(d))
    requires forall rid | rid in d :: d[rid].fact != row.fact && !SameUniqueValue(d[rid], row)
    ensures UniqueFacts(d[k := row]) && UniqueValueIndex(Rows(d[k := row]))
  {
  }

  lemma {:induction false} InsertedRows(d: Causets, rs: set<SearchResult>, inserted: map<nat, SearchResult>, tx: int,
      now: Causets)
    requires Inserted(d, rs, inserted, tx, now)
    ensures Rows(now) == Rows(Without(d, RetractedIds(rs))) + set r | r in inserted.Values :: NewRow(r, tx)
  {
    var kept := Without(d, RetractedIds(rs));
    var added := set r | r in inserted.Values :: NewRow(r, tx);
    forall row | row in Rows(now) ensures row in Rows(kept) + added {
      var rid :| rid in now && now[rid] == row;
      if rid in inserted {
        assert inserted[rid] in inserted.Values;
      } else {
        assert kept[rid] == row;
      }
    }
    forall row | row in Rows(kept) + added ensures row in Rows(now) {
      if row in added {
        var r :| r in inserted.Values && row == NewRow(r, tx);
        var rid :| rid in inserted && inserted[rid] == r;
        assert now[rid] == row;
      } else {
        var rid :| rid in kept && kept[rid] == row;
        assert now[rid] == row;
      }
    }
  }

  /** The table after a transaction holds the rows the index over unique values was asked about. */
  lemma {:induction false} UpdatedRows(d: Causets, rs: set<SearchResult>, tx: int, d': Causets)
    requires CausetsUpdated(d, rs, tx, d')
    ensures Rows(d') == Target(d, rs, tx)
  {
    var inserted :| UpdatedBy(d, rs, tx, inserted, d');
    InsertedRows(d, rs, inserted, tx, d');
  }

  lemma {:induction false} ClashRefuses(d: Causets, rs: set<SearchResult>, inserted: map<nat, SearchResult>,
      r: SearchResult, tx: int, now: Causets, rid: nat)
    requires UniqueResults(rs) && AddedFacts(rs) !! View(d)
    requires r in Additions(rs) && r !in inserted.Values
    requires Inserted(d, rs, inserted, tx, now)
    requires rid in now && SameUniqueValue(now[rid], NewRow(r, tx))
    ensures !UniqueValueIndex(Target(d, rs, tx))
  {
    FactIsNew(d, rs, inserted, r, tx, now);
    InsertedRows(d, rs, inserted, tx, now);
    assert now[rid] in Rows(now);
    assert now[rid] in Target(d, rs, tx) && NewRow(r, tx) in Target(d, rs, tx);
  }
}
