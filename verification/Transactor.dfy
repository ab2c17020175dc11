/** The relational step of the transactor: searches joined with the fact table, the rows the
    join adds and retracts, and what a whole run of transactions keeps.  Tables are values here;
    `TransactorStore` runs the statements in place. */
module Transactor {
  import opened Options
  import opened Bytes
  import opened Sorting

  // Integers and reals compare by numeric value in SQLite, so they share a constructor and
  // equality of `Value` is the SQL operator IS.
  datatype Value = Number(x: real) | Text(utf8: Key) | Blob(bytes: Key)

  datatype Fact = Fact(e: int, a: int, v: Value, tag: int)

  // The four flags that `flags0` packs into one byte.
  datatype Flags = Flags(avet: bool, vaet: bool, fulltext: bool, unique: bool)

  datatype Attribute = Attribute(multival: bool, tag: int)
  type Schema = map<int, Attribute>

  datatype CausetRow = CausetRow(fact: Fact, tx: int, flags: Flags)
  type Causets = map<nat, CausetRow>

  datatype LogRow = LogRow(fact: Fact, tx: int, added: bool)

  datatype SearchRow = SearchRow(fact: Fact, added: bool, flags: Flags)
  datatype SearchType = Exact | Inexact

  datatype Hit = Hit(rid: nat, v: Value)

  // `kind` and `index` say which search row a result came from: they tell apart two results
  // with equal columns, as the rows of a table are told apart.
  datatype SearchResult = SearchResult(t: SearchRow, kind: SearchType, index: nat, hit: Option<Hit>)

  datatype Txn = Txn(tx: int, exact: seq<SearchRow>, inexact: seq<SearchRow>)

  datatype Db = Db(causets: Causets, log: seq<LogRow>)

  const EMPTY := Db(map[], [])

  // ---------- queries ----------

  predicate Joins(kind: SearchType, t: SearchRow, d: CausetRow) {
    match kind
    case Exact => t.fact == d.fact
    case Inexact => t.fact.e == d.fact.e && t.fact.a == d.fact.a
  }

  function LeftJoin(kind: SearchType, ts: seq<SearchRow>, d: Causets): set<SearchResult> {
    (set i, rid | 0 <= i < |ts| && rid in d && Joins(kind, ts[i], d[rid]) ::
       SearchResult(ts[i], kind, i, Some(Hit(rid, d[rid].fact.v)))) +
    (set i | 0 <= i < |ts| && (forall rid | rid in d :: !Joins(kind, ts[i], d[rid])) ::
       SearchResult(ts[i], kind, i, None))
  }

  function SearchResults(exact: seq<SearchRow>, inexact: seq<SearchRow>, d: Causets): set<SearchResult> {
    LeftJoin(Exact, exact, d) + LeftJoin(Inexact, inexact, d)
  }

  predicate IsAddition(r: SearchResult) {
    r.t.added && (r.hit.None? || r.hit.value.v != r.t.fact.v)
  }

  predicate IsRetraction(r: SearchResult) {
    r.hit.Some? && (!r.t.added || (r.kind.Inexact? && r.t.fact.v != r.hit.value.v))
  }

  // The retraction statements take e, a and the tag from the search and v from the table.
  function HitFact(r: SearchResult): Fact
    requires r.hit.Some?
  {
    r.t.fact.(v := r.hit.value.v)
  }

  function AddedFacts(rs: set<SearchResult>): set<Fact> {
    set r | r in rs && IsAddition(r) :: r.t.fact
  }

  function RetractedFacts(rs: set<SearchResult>): set<Fact> {
    set r | r in rs && IsRetraction(r) :: HitFact(r)
  }

  function RetractedIds(rs: set<SearchResult>): set<nat> {
    set r | r in rs && IsRetraction(r) :: r.hit.value.rid
  }

  function View(d: Causets): set<Fact> {
    set rid | rid in d :: d[rid].fact
  }

  // ---------- guards: the unique indexes ----------

  predicate UniqueInexact(ts: seq<SearchRow>) {
    forall i, j | 0 <= i < j < |ts| ::
      !(ts[i].added && ts[j].added && ts[i].fact.e == ts[j].fact.e && ts[i].fact.a == ts[j].fact.a)
  }

  predicate UniqueResults(rs: set<SearchResult>) {
    forall r, s | r in rs && s in rs && r.t.fact == s.t.fact :: r == s
  }

  predicate UniqueFacts(d: Causets) {
    forall i, j | i in d && j in d && d[i].fact == d[j].fact :: i == j
  }

  // ---------- what the caller of the store provides ----------

  // Every searched fact has been type checked against the schema.
  ghost predicate Typed(schema: Schema, ts: seq<SearchRow>) {
    forall i | 0 <= i < |ts| :: ts[i].fact.a in schema && ts[i].fact.tag == schema[ts[i].fact.a].tag
  }

  ghost predicate ViewTyped(schema: Schema, fs: set<Fact>) {
    forall f | f in fs :: f.a in schema && f.tag == schema[f.a].tag
  }

  // Cardinality decides the search table, for additions and retractions alike.
  ghost predicate Routed(schema: Schema, txn: Txn) {
    && Typed(schema, txn.exact) && Typed(schema, txn.inexact)
    && (forall i | 0 <= i < |txn.exact| :: schema[txn.exact[i].fact.a].multival)
    && (forall i | 0 <= i < |txn.inexact| :: !schema[txn.inexact[i].fact.a].multival)
  }

  // ---------- one successful transaction ----------

  function Without(d: Causets, ids: set<nat>): Causets {
    map rid | rid in d && rid !in ids :: d[rid]
  }

  function NewRow(r: SearchResult, tx: int): CausetRow {
    CausetRow(r.t.fact, tx, r.t.flags)
  }

  function Additions(rs: set<SearchResult>): set<SearchResult> {
    set r | r in rs && IsAddition(r)
  }

  /** Rows outside `ids` are as they were, and `inserted` says which result each new row holds. */
  ghost predicate Reworked(d: Causets, ids: set<nat>, tx: int, inserted: map<nat, SearchResult>, d': Causets) {
    && (forall rid | rid in d :: rid in d' <==> rid !in ids)
    && (forall rid | rid in d && rid in d' :: d'[rid] == d[rid])
    && (forall rid | rid in inserted :: rid !in d && rid in d' && d'[rid] == NewRow(inserted[rid], tx))
    && (forall rid | rid in d' :: rid in d || rid in inserted)
    && UniqueFacts(d')
  }

  ghost predicate UpdatedBy(d: Causets, rs: set<SearchResult>, tx: int, inserted: map<nat, SearchResult>, d': Causets) {
    inserted.Values == Additions(rs) && Reworked(d, RetractedIds(rs), tx, inserted, d')
  }

  /** Retracted rows are gone, all other rows are as they were, and each addition has a new row. */
  ghost predicate CausetsUpdated(d: Causets, rs: set<SearchResult>, tx: int, d': Causets) {
    exists inserted :: UpdatedBy(d, rs, tx, inserted, d')
  }

  ghost predicate LogAppended(log: seq<LogRow>, rs: set<SearchResult>, tx: int, log': seq<LogRow>) {
    && log <= log'
    && Distinct(log'[|log|..])
    && (forall row :: row in log'[|log|..] <==>
          row.tx == tx && row.fact in (if row.added then AddedFacts(rs) else RetractedFacts(rs)))
  }

  ghost predicate FreshTx(log: seq<LogRow>, tx: int) {
    forall i | 0 <= i < |log| :: log[i].tx != tx
  }

  ghost predicate Materialized(schema: Schema, d: Causets, txn: Txn, d': Causets) {
    var rs := SearchResults(txn.exact, txn.inexact, d);
    && Routed(schema, txn)
    && UniqueInexact(txn.inexact)
    && UniqueResults(rs)
    && CausetsUpdated(d, rs, txn.tx, d')
  }

  ghost predicate Committed(schema: Schema, db: Db, txn: Txn, db': Db) {
    && Materialized(schema, db.causets, txn, db'.causets)
    && FreshTx(db.log, txn.tx)
    && LogAppended(db.log, SearchResults(txn.exact, txn.inexact, db.causets), txn.tx, db'.log)
  }

  ghost predicate CardinalityOne(schema: Schema, fs: set<Fact>) {
    forall f, g | f in fs && g in fs && f.e == g.e && f.a == g.a && f.a in schema && !schema[f.a].multival :: f == g
  }

  ghost predicate Invariant(schema: Schema, d: Causets) {
    UniqueFacts(d) && ViewTyped(schema, View(d)) && CardinalityOne(schema, View(d))
  }

  // ---------- the join ----------

  lemma {:induction false} ResultOf(kind: SearchType, ts: seq<SearchRow>, d: Causets, i: nat) returns (r: SearchResult)
    requires i < |ts|
    ensures r in LeftJoin(kind, ts, d)
    ensures r.t == ts[i] && r.kind == kind && r.index == i
    ensures r.hit.None? ==> forall rid | rid in d :: !Joins(kind, ts[i], d[rid])
    ensures r.hit.Some? ==> var h := r.hit.value; h.rid in d && Joins(kind, ts[i], d[h.rid]) && h.v == d[h.rid].fact.v
  {
    if rid :| rid in d && Joins(kind, ts[i], d[rid]) {
      r := SearchResult(ts[i], kind, i, Some(Hit(rid, d[rid].fact.v)));
    } else {
      r := SearchResult(ts[i], kind, i, None);
    }
  }

  /** A successful search finds at most one stored row for each search row. */
  lemma {:induction false} OneHit(d: Causets, txn: Txn, i: nat, r: SearchResult, rid: nat)
    requires UniqueResults(SearchResults(txn.exact, txn.inexact, d))
    requires r in LeftJoin(Inexact, txn.inexact, d)
    requires i < |txn.inexact| && r.t == txn.inexact[i]
    requires rid in d && Joins(Inexact, r.t, d[rid])
    ensures r.hit == Some(Hit(rid, d[rid].fact.v))
  {
    var s := SearchResult(txn.inexact[r.index], Inexact, r.index, Some(Hit(rid, d[rid].fact.v)));
    assert s in LeftJoin(Inexact, txn.inexact, d);
  }

  /** What the join says of one result: the hit is a stored row of that entity and attribute, and a
      miss means no stored row joins. */
  lemma {:induction false} ResultMeaning(schema: Schema, d: Causets, txn: Txn, r: SearchResult)
    requires Routed(schema, txn) && ViewTyped(schema, View(d))
    requires r in SearchResults(txn.exact, txn.inexact, d)
    ensures r.t.fact.a in schema && r.t.fact.tag == schema[r.t.fact.a].tag
    ensures schema[r.t.fact.a].multival <==> r.kind.Exact?
    ensures r.hit.Some? ==> r.hit.value.rid in d && d[r.hit.value.rid].fact == HitFact(r)
    ensures r.hit.Some? && r.kind.Exact? ==> HitFact(r) == r.t.fact
    ensures r.hit.None? ==> forall rid | rid in d :: !Joins(r.kind, r.t, d[rid])
  {
    if r.hit.Some? {
      assert d[r.hit.value.rid].fact in View(d);
    }
  }

  /** The facts a transaction retracts were stored, the facts it adds were not. */
  lemma {:induction false} DeltaIsMinimal(schema: Schema, d: Causets, txn: Txn)
    requires Routed(schema, txn) && ViewTyped(schema, View(d))
    requires UniqueResults(SearchResults(txn.exact, txn.inexact, d))
    ensures RetractedFacts(SearchResults(txn.exact, txn.inexact, d)) <= View(d)
    ensures AddedFacts(SearchResults(txn.exact, txn.inexact, d)) !! View(d)
  {
    var rs := SearchResults(txn.exact, txn.inexact, d);
    forall f | f in RetractedFacts(rs) ensures f in View(d) {
      var r :| r in rs && IsRetraction(r) && f == HitFact(r);
      ResultMeaning(schema, d, txn, r);
    }
    forall f | f in AddedFacts(rs) ensures f !in View(d) {
      var r :| r in rs && IsAddition(r) && f == r.t.fact;
      ResultMeaning(schema, d, txn, r);
      if rid :| rid in d && d[rid].fact == f {
        if r.kind.Inexact? {
          OneHit(d, txn, r.index, r, rid);
        }
        assert false;
      }
    }
  }

  /** Deleting by row id removes the retracted facts and no others. */
  lemma {:induction false} DeletedView(schema: Schema, d: Causets, txn: Txn)
    requires Routed(schema, txn) && Invariant(schema, d)
    ensures var rs := SearchResults(txn.exact, txn.inexact, d);
            View(Without(d, RetractedIds(rs))) == View(d) - RetractedFacts(rs)
  {
    var rs := SearchResults(txn.exact, txn.inexact, d);
    var kept := Without(d, RetractedIds(rs));
    forall rid | rid in d ensures rid in RetractedIds(rs) <==> d[rid].fact in RetractedFacts(rs) {
      if rid in RetractedIds(rs) {
        var r :| r in rs && IsRetraction(r) && r.hit.value.rid == rid;
        ResultMeaning(schema, d, txn, r);
      }
      if d[rid].fact in RetractedFacts(rs) {
        var r :| r in rs && IsRetraction(r) && HitFact(r) == d[rid].fact;
        ResultMeaning(schema, d, txn, r);
        assert r.hit.value.rid == rid;
      }
    }
    forall f | f in View(d) - RetractedFacts(rs) ensures f in View(kept) {
      var rid :| rid in d && d[rid].fact == f;
      assert kept[rid].fact == f;
    }
  }

  lemma {:induction false} InsertedView(d: Causets, rs: set<SearchResult>, tx: int, inserted: map<nat, SearchResult>,
      d': Causets)
    requires UpdatedBy(d, rs, tx, inserted, d')
    ensures View(d') == View(Without(d, RetractedIds(rs))) + AddedFacts(rs)
  {
    var kept := Without(d, RetractedIds(rs));
    forall f | f in View(d') ensures f in View(kept) + AddedFacts(rs) {
      var rid :| rid in d' && d'[rid].fact == f;
      if rid in inserted {
        assert inserted[rid] in inserted.Values;
      } else {
        assert kept[rid].fact == f;
      }
    }
    forall f | f in View(kept) + AddedFacts(rs) ensures f in View(d') {
      if f in AddedFacts(rs) {
        var r :| r in rs && IsAddition(r) && f == r.t.fact;
        assert r in inserted.Values;
        var rid :| rid in inserted && inserted[rid] == r;
        assert d'[rid].fact == f;
      } else {
        var rid :| rid in kept && kept[rid].fact == f;
        assert d'[rid].fact == f;
      }
    }
  }

  /** Deleting by row id and inserting the additions moves the view by exactly the delta. */
  lemma {:induction false} MaterializedView(schema: Schema, d: Causets, txn: Txn, d': Causets)
    requires Invariant(schema, d) && Materialized(schema, d, txn, d')
    ensures var rs := SearchResults(txn.exact, txn.inexact, d);
            View(d') == View(d) - RetractedFacts(rs) + AddedFacts(rs)
  {
    var rs := SearchResults(txn.exact, txn.inexact, d);
    var inserted :| UpdatedBy(d, rs, txn.tx, inserted, d');
    DeletedView(schema, d, txn);
    InsertedView(d, rs, txn.tx, inserted, d');
  }

  /** Every successful transaction keeps "at most one value per entity and cardinality-one
      attribute", whatever it retracts on the way. */
  lemma {:induction false} CardinalityKept(schema: Schema, d: Causets, txn: Txn, d': Causets)
    requires Invariant(schema, d) && Materialized(schema, d, txn, d')
    ensures Invariant(schema, d')
  {
    var rs := SearchResults(txn.exact, txn.inexact, d);
    MaterializedView(schema, d, txn, d');
    forall f | f in View(d') ensures f.a in schema && f.tag == schema[f.a].tag {
      if f in AddedFacts(rs) {
        var r :| r in rs && IsAddition(r) && f == r.t.fact;
        ResultMeaning(schema, d, txn, r);
      }
    }
    forall f, g | f in View(d') && g in View(d') && f.e == g.e && f.a == g.a && !schema[f.a].multival
      ensures f == g
    {
      if f in AddedFacts(rs) {
        AdditionReplaces(schema, d, txn, d', f, g);
      } else if g in AddedFacts(rs) {
        AdditionReplaces(schema, d, txn, d', g, f);
      }
    }
  }

  lemma {:induction false} AdditionReplaces(schema: Schema, d: Causets, txn: Txn, d': Causets, f: Fact, g: Fact)
    requires Invariant(schema, d) && Materialized(schema, d, txn, d')
    requires f in AddedFacts(SearchResults(txn.exact, txn.inexact, d)) && g in View(d')
    requires f.e == g.e && f.a == g.a && f.a in schema && !schema[f.a].multival
    ensures f == g
  {
    var rs := SearchResults(txn.exact, txn.inexact, d);
    MaterializedView(schema, d, txn, d');
    var r :| r in rs && IsAddition(r) && f == r.t.fact;
    if g in AddedFacts(rs) {
      var s :| s in rs && IsAddition(s) && g == s.t.fact;
      OneAddition(schema, d, txn, r, s);
    } else {
      StaleValueRetracted(schema, d, txn, r, g);
    }
  }

  /** The index on the inexact searches admits one addition per entity and attribute. */
  lemma {:induction false} OneAddition(schema: Schema, d: Causets, txn: Txn, r: SearchResult, s: SearchResult)
    requires Routed(schema, txn) && ViewTyped(schema, View(d)) && UniqueInexact(txn.inexact)
    requires r in SearchResults(txn.exact, txn.inexact, d) && s in SearchResults(txn.exact, txn.inexact, d)
    requires r.t.added && s.t.added && r.t.fact.e == s.t.fact.e && r.t.fact.a == s.t.fact.a
    requires r.t.fact.a in schema && !schema[r.t.fact.a].multival
    ensures r.t.fact == s.t.fact
  {
  }

  /** Adding a cardinality-one value retracts any other stored value. */
  lemma {:induction false} StaleValueRetracted(schema: Schema, d: Causets, txn: Txn, r: SearchResult, g: Fact)
    requires Routed(schema, txn) && ViewTyped(schema, View(d))
    requires UniqueResults(SearchResults(txn.exact, txn.inexact, d))
    requires r in SearchResults(txn.exact, txn.inexact, d) && IsAddition(r)
    requires g in View(d) && r.t.fact.e == g.e && r.t.fact.a == g.a
    requires g.a in schema && !schema[g.a].multival
    ensures g in RetractedFacts(SearchResults(txn.exact, txn.inexact, d))
  {
  }

  // ---------- the log ----------

  ghost function TxFacts(log: seq<LogRow>, tx: int, added: bool): set<Fact> {
    set i | 0 <= i < |log| && log[i].tx == tx && log[i].added == added :: log[i].fact
  }

  /** The log rows of a committed transaction are its delta, and later transactions leave them be. */
  lemma {:induction false} LoggedDelta(log: seq<LogRow>, rs: set<SearchResult>, tx: int, log': seq<LogRow>)
    requires FreshTx(log, tx) && LogAppended(log, rs, tx, log')
    ensures TxFacts(log', tx, true) == AddedFacts(rs)
    ensures TxFacts(log', tx, false) == RetractedFacts(rs)
    ensures forall u, added | u != tx :: TxFacts(log', u, added) == TxFacts(log, u, added)
  {
    var rows := log'[|log|..];
    assert forall i | |log| <= i < |log'| :: log'[i] == rows[i - |log|] && log'[i] in rows;
    forall f, added ensures f in TxFacts(log', tx, added) <==> LogRow(f, tx, added) in rows {
      if LogRow(f, tx, added) in rows {
        var i :| 0 <= i < |rows| && rows[i] == LogRow(f, tx, added);
        assert log'[|log| + i] == rows[i];
      }
    }
    forall u, added | u != tx ensures TxFacts(log', u, added) == TxFacts(log, u, added) {
      assert forall i | 0 <= i < |log| :: log'[i] == log[i];
    }
  }

  /** Each transaction's log rows are minimal and invertible. */
  lemma {:induction false} StepDelta(schema: Schema, db: Db, txn: Txn, db': Db)
    requires Invariant(schema, db.causets) && Committed(schema, db, txn, db')
    ensures var added, retracted := TxFacts(db'.log, txn.tx, true), TxFacts(db'.log, txn.tx, false);
            && retracted <= View(db.causets) && added !! View(db.causets)
            && View(db'.causets) == View(db.causets) - retracted + added
            && View(db.causets) == View(db'.causets) - added + retracted
  {
    var rs := SearchResults(txn.exact, txn.inexact, db.causets);
    LoggedDelta(db.log, rs, txn.tx, db'.log);
    DeltaIsMinimal(schema, db.causets, txn);
    MaterializedView(schema, db.causets, txn, db'.causets);
  }

  // ---------- runs ----------

  ghost predicate StepAt(schema: Schema, dbs: seq<Db>, txns: seq<Txn>, i: nat)
    requires |dbs| == |txns| + 1 && i < |txns|
  {
    Committed(schema, dbs[i], txns[i], dbs[i + 1])
  }

  ghost predicate Run(schema: Schema, dbs: seq<Db>, txns: seq<Txn>) {
    && |dbs| == |txns| + 1
    && dbs[0] == EMPTY
    && (forall i, j | 0 <= i < j < |txns| :: txns[i].tx != txns[j].tx)
    && forall i | 0 <= i < |txns| :: StepAt(schema, dbs, txns, i)
  }

  ghost function Ids(txns: seq<Txn>): seq<int> {
    seq(|txns|, i requires 0 <= i < |txns| => txns[i].tx)
  }

  /** Apply the log of each transaction in turn: retractions out, additions in. */
  ghost function Replay(log: seq<LogRow>, ids: seq<int>): set<Fact> {
    if ids == [] then {}
    else Replay(log, ids[..|ids| - 1]) - TxFacts(log, ids[|ids| - 1], false) + TxFacts(log, ids[|ids| - 1], true)
  }

  /** Undo the log of each transaction, last first: additions out, retractions in. */
  ghost function RollBack(view: set<Fact>, log: seq<LogRow>, ids: seq<int>): set<Fact>
    decreases |ids|
  {
    if ids == [] then view
    else
      var tx := ids[|ids| - 1];
      RollBack(view - TxFacts(log, tx, true) + TxFacts(log, tx, false), log, ids[..|ids| - 1])
  }

  lemma {:induction false} EmptyInvariant(schema: Schema)
    ensures Invariant(schema, map[])
  {
  }

  lemma {:induction false} StepInvariant(schema: Schema, db: Db, txn: Txn, db': Db)
    requires Invariant(schema, db.causets) && Committed(schema, db, txn, db')
    ensures Invariant(schema, db'.causets)
  {
    CardinalityKept(schema, db.causets, txn, db'.causets);
  }

  /** Every state of a run keeps the table's invariant. */
  lemma {:induction false} RunInvariant(schema: Schema, dbs: seq<Db>, txns: seq<Txn>, k: nat)
    requires Run(schema, dbs, txns) && k < |dbs|
    ensures Invariant(schema, dbs[k].causets)
  {
    if k > 0 {
      var i := k - 1;
      RunInvariant(schema, dbs, txns, i);
      assert StepAt(schema, dbs, txns, i);
      StepInvariant(schema, dbs[i], txns[i], dbs[i + 1]);
    } else {
      EmptyInvariant(schema);
    }
  }

  lemma {:induction false} OtherTxUntouched(schema: Schema, db: Db, txn: Txn, db': Db, tx: int)
    requires Committed(schema, db, txn, db') && tx != txn.tx
    ensures forall added :: TxFacts(db'.log, tx, added) == TxFacts(db.log, tx, added)
  {
  }

  /** A transaction's log rows are final once written. */
  lemma {:induction false} LogStable(schema: Schema, dbs: seq<Db>, txns: seq<Txn>, i: nat, k: nat)
    requires Run(schema, dbs, txns) && i < k < |dbs|
    ensures forall added :: TxFacts(dbs[k].log, txns[i].tx, added) == TxFacts(dbs[i + 1].log, txns[i].tx, added)
    decreases k
  {
    if i + 1 < k {
      LogStable(schema, dbs, txns, i, k - 1);
      var j := k - 1;
      assert StepAt(schema, dbs, txns, j);
      OtherTxUntouched(schema, dbs[j], txns[j], dbs[j + 1], txns[i].tx);
    }
  }

  /** One committed transaction, read off the final log. */
  lemma {:induction false} StepFromFinalLog(schema: Schema, dbs: seq<Db>, txns: seq<Txn>, i: nat, n: nat)
    requires Run(schema, dbs, txns) && i < n < |dbs|
    ensures var added, retracted := TxFacts(dbs[n].log, txns[i].tx, true), TxFacts(dbs[n].log, txns[i].tx, false);
            && retracted <= View(dbs[i].causets) && added !! View(dbs[i].causets)
            && View(dbs[i + 1].causets) == View(dbs[i].causets) - retracted + added
            && View(dbs[i].causets) == View(dbs[i + 1].causets) - added + retracted
  {
    RunInvariant(schema, dbs, txns, i);
    assert StepAt(schema, dbs, txns, i);
    StepDelta(schema, dbs[i], txns[i], dbs[i + 1]);
    LogStable(schema, dbs, txns, i, n);
  }

  /** Replaying the log up to any point of a run rebuilds the fact table at that point. */
  lemma {:induction false} ReplayRebuildsView(schema: Schema, dbs: seq<Db>, txns: seq<Txn>, k: nat, n: nat)
    requires Run(schema, dbs, txns) && k <= n < |dbs|
    ensures Replay(dbs[n].log, Ids(txns)[..k]) == View(dbs[k].causets)
    decreases k
  {
    if k > 0 {
      var ids := Ids(txns)[..k];
      assert ids[..k - 1] == Ids(txns)[..k - 1];
      ReplayRebuildsView(schema, dbs, txns, k - 1, n);
      StepFromFinalLog(schema, dbs, txns, k - 1, n);
    }
  }

  /** Undoing any suffix of a run's log leads back to the fact table before that suffix. */
  lemma {:induction false} RollBackRestoresView(schema: Schema, dbs: seq<Db>, txns: seq<Txn>, k: nat, m: nat, n: nat)
    requires Run(schema, dbs, txns) && k <= m <= n < |dbs|
    ensures RollBack(View(dbs[m].causets), dbs[n].log, Ids(txns)[k..m]) == View(dbs[k].causets)
    decreases m
  {
    if k < m {
      var ids := Ids(txns)[k..m];
      assert ids[..|ids| - 1] == Ids(txns)[k..m - 1];
      StepFromFinalLog(schema, dbs, txns, m - 1, n);
      RollBackRestoresView(schema, dbs, txns, k, m - 1, n);
    }
  }
}
