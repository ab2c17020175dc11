/** A flat cache and the store it caches: the rows that keep the two in step, and what registering
    does. */
module CacheStore {
  import opened Options
  import opened Sorting
  import opened AttributeCache
  import opened CacheLayering

  // ---------- agreement ----------

  /** A lookup that answers with a vector lists each value of the store once. */
  ghost predicate ForwardAgrees(c: Caches, schema: Schema, store: set<Aev>, a: int, e: int, v: Value) {
    a in schema && a in c.forward ==>
      if schema[a].multival then Listed(c, schema, Aev(a, e, v)) == if Aev(a, e, v) in store then 1 else 0
      else (ValueOf(c, schema, a, e) == Some(v) <==> Aev(a, e, v) in store)
  }

  ghost predicate ReverseAgrees(c: Caches, schema: Schema, store: set<Aev>, a: int, e: int, v: Value) {
    a in schema && a in c.reverse ==>
      if schema[a].unique then (Entid(c, a, v) == Some(e) <==> Aev(a, e, v) in store)
      else (e in Members(Entids(c, a, v)) <==> Aev(a, e, v) in store)
  }

  /** Every lookup of a cached attribute is a scan of the store. */
  ghost predicate Agrees(c: Caches, schema: Schema, store: set<Aev>) {
    forall a, e, v :: ForwardAgrees(c, schema, store, a, e, v) && ReverseAgrees(c, schema, store, a, e, v)
  }

  /** The store respects cardinality and uniqueness. */
  ghost predicate Lawful(schema: Schema, store: set<Aev>) {
    && (forall x, y | x in store && y in store && x.a == y.a && x.e == y.e && x.a in schema && !schema[x.a].multival ::
         x.v == y.v)
    && (forall x, y | x in store && y in store && x.a == y.a && x.v == y.v && x.a in schema && schema[x.a].unique ::
         x.e == y.e)
  }

  /** Retracting the row cannot erase another row's entry: the single-valued map is erased by
      entity and the unique map by value. */
  ghost predicate Harmless(schema: Schema, store: set<Aev>, row: Aev) {
    && row.a in schema
    && (!schema[row.a].multival ==> forall x | x in store && x.a == row.a && x.e == row.e :: x == row)
    && (schema[row.a].unique ==> forall x | x in store && x.a == row.a && x.v == row.v :: x == row)
  }

  lemma {:induction false} RemoveEveryCounts(vs: seq<Value>, v: Value, w: Value)
    ensures multiset(RemoveEvery(vs, v))[w] == if w == v then 0 else multiset(vs)[w]
  {
    if vs != [] {
      RemoveEveryCounts(vs[1..], v, w);
      assert vs == [vs[0]] + vs[1..];
    }
  }

  // ---------- one row ----------

  /** Values of the attribute are listed in vectors, to which an assertion appends unconditionally. */
  predicate Vectors(c: Caches, schema: Schema, a: int) {
    a in schema && a in c.forward && schema[a].multival
  }

  ghost function Listed(c: Caches, schema: Schema, row: Aev): nat {
    multiset(Vec(Values(c, schema, row.a, row.e)))[row.v]
  }

  lemma {:induction false} VecStep(c: Caches, schema: Schema, row: Aev, add: bool, a: int, e: int)
    requires row.a in schema && Vectors(c, schema, a)
    ensures var vs := Vec(Values(c, schema, a, e));
            Vec(Values(Step(c, None, schema, row, add), schema, a, e)) ==
            if row.a != a || row.e != e then vs else if add then vs + [row.v] else RemoveEvery(vs, row.v)
  {
    assert Entry(c.multi, EMPTY.multi, row.a) == if row.a in c.multi then c.multi[row.a] else map[];
  }

  lemma {:induction false} MultiStep(c: Caches, schema: Schema, row: Aev, add: bool, x: Aev)
    requires row.a in schema && Vectors(c, schema, x.a)
    ensures Listed(Step(c, None, schema, row, add), schema, x) ==
            if row != x then Listed(c, schema, x) else if add then Listed(c, schema, x) + 1 else 0
  {
    VecStep(c, schema, row, add, x.a, x.e);
    RemoveEveryCounts(Vec(Values(c, schema, x.a, x.e)), row.v, x.v);
  }

  lemma {:induction false} RemoveForward(c: Caches, schema: Schema, store: set<Aev>, row: Aev, a: int, e: int, v: Value)
    requires ForwardAgrees(c, schema, store, a, e, v) && Harmless(schema, store, row)
    ensures ForwardAgrees(Step(c, None, schema, row, false), schema, store - {row}, a, e, v)
  {
    if Vectors(c, schema, a) {
      MultiStep(c, schema, row, false, Aev(a, e, v));
    }
  }

  lemma {:induction false} AddForward(c: Caches, schema: Schema, store: set<Aev>, row: Aev, a: int, e: int, v: Value)
    requires ForwardAgrees(c, schema, store, a, e, v) && row.a in schema && Lawful(schema, store + {row})
    requires Vectors(c, schema, row.a) ==> row !in store
    ensures ForwardAgrees(Step(c, None, schema, row, true), schema, store + {row}, a, e, v)
  {
    if Vectors(c, schema, a) {
      MultiStep(c, schema, row, true, Aev(a, e, v));
    }
  }

  lemma {:induction false} RemoveReverse(c: Caches, schema: Schema, store: set<Aev>, row: Aev, a: int, e: int, v: Value)
    requires ReverseAgrees(c, schema, store, a, e, v) && Harmless(schema, store, row)
    ensures ReverseAgrees(Step(c, None, schema, row, false), schema, store - {row}, a, e, v)
  {
  }

  lemma {:induction false} AddReverse(c: Caches, schema: Schema, store: set<Aev>, row: Aev, a: int, e: int, v: Value)
    requires ReverseAgrees(c, schema, store, a, e, v) && row.a in schema && Lawful(schema, store + {row})
    ensures ReverseAgrees(Step(c, None, schema, row, true), schema, store + {row}, a, e, v)
  {
  }

  /** Retracting a harmless row, or asserting one that keeps the store lawful, moves cache and store
      together. */
  lemma {:induction false} StepAgrees(c: Caches, schema: Schema, store: set<Aev>, row: Aev, add: bool)
    requires Agrees(c, schema, store) && row.a in schema
    requires if add then Lawful(schema, store + {row}) && (Vectors(c, schema, row.a) ==> row !in store)
             else Harmless(schema, store, row)
    ensures Agrees(Step(c, None, schema, row, add), schema, if add then store + {row} else store - {row})
  {
    var c', store' := Step(c, None, schema, row, add), if add then store + {row} else store - {row};
    forall a, e, v
      ensures ForwardAgrees(c', schema, store', a, e, v) && ReverseAgrees(c', schema, store', a, e, v)
    {
      assert ForwardAgrees(c, schema, store, a, e, v) && ReverseAgrees(c, schema, store, a, e, v);
      if add {
        AddForward(c, schema, store, row, a, e, v);
        AddReverse(c, schema, store, row, a, e, v);
      } else {
        RemoveForward(c, schema, store, row, a, e, v);
        RemoveReverse(c, schema, store, row, a, e, v);
      }
    }
  }

  // ---------- one update ----------

  ghost function RowSet(rows: seq<Aev>): set<Aev> {
    set i | 0 <= i < |rows| :: rows[i]
  }

  lemma {:induction false} RemovalsAgree(c: Caches, schema: Schema, store: set<Aev>, rows: seq<Aev>)
    requires Agrees(c, schema, store) && Ready(c, schema, rows)
    requires forall i | 0 <= i < |rows| :: Harmless(schema, store, rows[i])
    ensures Agrees(Fold(c, None, schema, rows, false), schema, store - RowSet(rows))
    decreases |rows|
  {
    if rows == [] {
      assert store - RowSet(rows) == store;
    } else {
      StepAgrees(c, schema, store, rows[0], false);
      RemovalsAgree(Step(c, None, schema, rows[0], false), schema, store - {rows[0]}, rows[1..]);
      assert RowSet(rows) == {rows[0]} + RowSet(rows[1..]);
      assert store - {rows[0]} - RowSet(rows[1..]) == store - RowSet(rows);
    }
  }

  /** Rows that go into vectors are absent from the store and different from one another. */
  ghost predicate Novel(c: Caches, schema: Schema, store: set<Aev>, rows: seq<Aev>) {
    forall i | 0 <= i < |rows| && Vectors(c, schema, rows[i].a) ::
      rows[i] !in store && forall j | 0 <= j < i :: rows[j] != rows[i]
  }

  lemma {:induction false} AdditionsAgree(c: Caches, schema: Schema, store: set<Aev>, rows: seq<Aev>)
    requires Agrees(c, schema, store) && Ready(c, schema, rows)
    requires Lawful(schema, store + RowSet(rows)) && Novel(c, schema, store, rows)
    ensures Agrees(Fold(c, None, schema, rows, true), schema, store + RowSet(rows))
    decreases |rows|
  {
    if rows == [] {
      assert store + RowSet(rows) == store;
    } else {
      assert RowSet(rows) == {rows[0]} + RowSet(rows[1..]);
      assert store + {rows[0]} + RowSet(rows[1..]) == store + RowSet(rows);
      LawfulSubset(schema, store + {rows[0]}, store + RowSet(rows));
      StepAgrees(c, schema, store, rows[0], true);
      AdditionsAgree(Step(c, None, schema, rows[0], true), schema, store + {rows[0]}, rows[1..]);
    }
  }

  lemma {:induction false} LawfulSubset(schema: Schema, sub: set<Aev>, store: set<Aev>)
    requires sub <= store && Lawful(schema, store)
    ensures Lawful(schema, sub)
  {
  }

  ghost function NewStore(store: set<Aev>, retractions: seq<Aev>, assertions: seq<Aev>): set<Aev> {
    store - RowSet(retractions) + RowSet(assertions)
  }

  /** Retractions erase no other row and the result respects cardinality and uniqueness. */
  ghost predicate Orderly(schema: Schema, store: set<Aev>, retractions: seq<Aev>, assertions: seq<Aev>) {
    && (forall i | 0 <= i < |retractions| :: Harmless(schema, store, retractions[i]))
    && Lawful(schema, NewStore(store, retractions, assertions))
  }

  /** An orderly update that asserts nothing twice keeps every lookup equal to a scan of the store. */
  lemma {:induction false} UpdateAgrees(c: Caches, schema: Schema, store: set<Aev>, rs: seq<Aev>, ts: seq<Aev>)
    requires Agrees(c, schema, store) && Ready(c, schema, rs) && Ready(c, schema, ts)
    requires Orderly(schema, store, rs, ts) && Novel(c, schema, store - RowSet(rs), ts)
    ensures Agrees(Update(c, None, schema, rs, ts), schema, NewStore(store, rs, ts))
  {
    RemovalsAgree(c, schema, store, rs);
    FoldKeepsFlags(c, None, schema, rs, false);
    AdditionsAgree(Fold(c, None, schema, rs, false), schema, store - RowSet(rs), ts);
  }

  /** Assertions add up in a vector, whatever it holds. */
  lemma {:induction false} MultiAdditions(c: Caches, schema: Schema, rows: seq<Aev>, x: Aev)
    requires Ready(c, schema, rows) && Vectors(c, schema, x.a)
    ensures Listed(Fold(c, None, schema, rows, true), schema, x) == Listed(c, schema, x) + multiset(rows)[x]
    decreases |rows|
  {
    if rows != [] {
      MultiStep(c, schema, rows[0], true, x);
      MultiAdditions(Step(c, None, schema, rows[0], true), schema, rows[1..], x);
      assert rows == [rows[0]] + rows[1..];
    }
  }

  lemma {:induction false} AgreementIsNovel(c: Caches, schema: Schema, store: set<Aev>, ts: seq<Aev>)
    requires Agrees(c, schema, store) && Ready(c, schema, ts)
    requires Agrees(Fold(c, None, schema, ts, true), schema, store + RowSet(ts))
    ensures Novel(c, schema, store, ts)
  {
    var c' := Fold(c, None, schema, ts, true);
    FoldKeepsFlags(c, None, schema, ts, true);
    forall i | 0 <= i < |ts| && Vectors(c, schema, ts[i].a)
      ensures ts[i] !in store && forall j | 0 <= j < i :: ts[j] != ts[i]
    {
      var row := ts[i];
      MultiAdditions(c, schema, ts, row);
      assert ForwardAgrees(c, schema, store, row.a, row.e, row.v);
      assert ForwardAgrees(c', schema, store + RowSet(ts), row.a, row.e, row.v);
      assert row in multiset(ts);
      forall j | 0 <= j < i ensures ts[j] != ts[i] {
        if ts[j] == ts[i] {
          TwiceCounts(ts, j, i);
          assert false;
        }
      }
    }
  }

  /** An orderly update keeps every lookup equal to a scan of the store if and only if the asserted
      rows of attributes with vectors are absent after the retractions and pairwise different. */
  lemma {:induction false} UpdateAgreesIff(c: Caches, schema: Schema, store: set<Aev>, rs: seq<Aev>, ts: seq<Aev>)
    requires Agrees(c, schema, store) && Ready(c, schema, rs) && Ready(c, schema, ts)
    requires Orderly(schema, store, rs, ts)
    ensures Agrees(Update(c, None, schema, rs, ts), schema, NewStore(store, rs, ts)) <==>
            Novel(c, schema, store - RowSet(rs), ts)
  {
    var c1 := Fold(c, None, schema, rs, false);
    RemovalsAgree(c, schema, store, rs);
    FoldKeepsFlags(c, None, schema, rs, false);
    if Novel(c, schema, store - RowSet(rs), ts) {
      UpdateAgrees(c, schema, store, rs, ts);
    } else if Agrees(Update(c, None, schema, rs, ts), schema, NewStore(store, rs, ts)) {
      AgreementIsNovel(c1, schema, store - RowSet(rs), ts);
      assert false;
    }
  }

  /** Asserting a stored fact again lists it twice. */
  lemma {:induction false} ListedTwiceExample(v: Value) returns (c: Caches, schema: Schema, store: set<Aev>,
      ts: seq<Aev>)
    ensures Agrees(c, schema, store) && Ready(c, schema, ts) && Orderly(schema, store, [], ts)
    ensures store == {Aev(10, 1, v)} && ts == [Aev(10, 1, v)]
    ensures Values(Update(c, None, schema, [], ts), schema, 10, 1) == Some([v, v])
  {
    var row := Aev(10, 1, v);
    c, schema := Caches({10}, {}, map[], map[10 := map[1 := [v]]], map[], map[]), map[10 := Attribute(true, false)];
    store, ts := {row}, [row];
    forall a, e, w ensures ForwardAgrees(c, schema, store, a, e, w) && ReverseAgrees(c, schema, store, a, e, w) {
    }
    assert RowSet(ts) == {row} by {
      assert ts[0] in RowSet(ts);
    }
    assert Fold(c, None, schema, [], false) == c;
    OneRow(c, None, schema, row, true);
    VecStep(c, schema, row, true, 10, 1);
    assert Vec(Values(c, schema, 10, 1)) == [v] && [v] + [v] == [v, v];
    assert Update(c, None, schema, [], ts) == Fold(c, None, schema, ts, true);
  }

  // ---------- registering ----------

  /** The rows of one attribute in the store, each once. */
  ghost predicate Lists(rows: seq<Aev>, store: set<Aev>, a: int) {
    Distinct(rows) && forall row :: row in rows <==> row in store && row.a == a
  }

  lemma {:induction false} ClearAgrees(c: Caches, schema: Schema, store: set<Aev>, a: int)
    requires a in schema && forall b, e, v | b != a ::
             ForwardAgrees(c, schema, store, b, e, v) && ReverseAgrees(c, schema, store, b, e, v)
    ensures Agrees(Clear(c, schema, a), schema, set row | row in store && row.a != a)
  {
    var c', rest := Clear(c, schema, a), set row | row in store && row.a != a;
    forall b, e, v ensures ForwardAgrees(c', schema, rest, b, e, v) && ReverseAgrees(c', schema, rest, b, e, v) {
      if b != a {
        assert ForwardAgrees(c, schema, store, b, e, v) && ReverseAgrees(c, schema, store, b, e, v);
      }
    }
  }

  /** Registering from the rows of the store makes every lookup of the attribute a scan of the store,
      in the new directions and in those it had. */
  lemma {:induction false} RegisterAgrees(c: Caches, schema: Schema, store: set<Aev>, a: int, fwd: bool, rev: bool,
      rows: seq<Aev>)
    requires Agrees(c, schema, store) && WellFormed(c) && Lawful(schema, store)
    requires a in schema && (fwd || rev) && Lists(rows, store, a)
    ensures Agrees(Register(c, schema, a, fwd, rev, rows), schema, store)
  {
    var c1 := c.(forward := c.forward + Just(fwd, a), reverse := c.reverse + Just(rev, a));
    forall b, e, v ensures b != a || rows == [] ==>
        ForwardAgrees(c1, schema, store, b, e, v) && ReverseAgrees(c1, schema, store, b, e, v) {
      assert ForwardAgrees(c, schema, store, b, e, v) && ReverseAgrees(c, schema, store, b, e, v);
      assert rows == [] ==> Aev(a, e, v) !in store;
    }
    if rows != [] {
      ClearAgrees(c1, schema, store, a);
      var rest := set row | row in store && row.a != a;
      assert rest + RowSet(rows) == store;
      AdditionsAgree(Clear(c1, schema, a), schema, rest, rows);
    }
  }

  // ---------- a registration that is skipped ----------

  ghost predicate AgreesAt(c: Caches, schema: Schema, store: set<Aev>, a: int) {
    forall e, v :: ForwardAgrees(c, schema, store, a, e, v) && ReverseAgrees(c, schema, store, a, e, v)
  }

  /** Two caches of the attribute answer alike, vectors up to their order. */
  ghost predicate SameAnswers(c: Caches, c': Caches, schema: Schema, a: int, e: int, v: Value)
    requires a in schema
  {
    && (a in c.forward && schema[a].multival ==> Listed(c, schema, Aev(a, e, v)) == Listed(c', schema, Aev(a, e, v)))
    && (a in c.forward && !schema[a].multival ==> ValueOf(c, schema, a, e) == ValueOf(c', schema, a, e))
    && (a in c.reverse && schema[a].unique ==> Entid(c, a, v) == Entid(c', a, v))
    && (a in c.reverse && !schema[a].unique ==> (e in Members(Entids(c, a, v)) <==> e in Members(Entids(c', a, v))))
  }

  ghost predicate SameAt(c: Caches, c': Caches, schema: Schema, a: int)
    requires a in schema
  {
    forall e, v :: SameAnswers(c, c', schema, a, e, v)
  }

  /** Rows of one attribute are folded in by that attribute's schema alone. */
  lemma {:induction false} FoldLocal(c: Caches, schema: Schema, a: int, rows: seq<Aev>)
    requires a in schema && Ready(c, schema, rows) && forall i | 0 <= i < |rows| :: rows[i].a == a
    ensures Ready(c, map[a := schema[a]], rows)
    ensures Fold(c, None, schema, rows, true) == Fold(c, None, map[a := schema[a]], rows, true)
    decreases |rows|
  {
    if rows != [] {
      FoldLocal(Step(c, None, schema, rows[0], true), schema, a, rows[1..]);
    }
  }

  lemma {:induction false} RefillAgreesLocally(c: Caches, local: Schema, store: set<Aev>, a: int, rows: seq<Aev>)
    requires local.Keys == {a} && Cached(c, a) && Lawful(local, store) && Lists(rows, store, a)
    ensures Ready(Clear(c, local, a), local, rows)
    ensures Agrees(Fold(Clear(c, local, a), None, local, rows, true), local, store)
  {
    ClearAgrees(c, local, store, a);
    var rest := set row | row in store && row.a != a;
    assert rest + RowSet(rows) == store;
    AdditionsAgree(Clear(c, local, a), local, rest, rows);
  }

  /** A refill from the rows of the store, if there are any, agrees with the store whatever was cached. */
  lemma {:induction false} RefillAgrees(c: Caches, schema: Schema, store: set<Aev>, a: int, rows: seq<Aev>)
    requires a in schema && Cached(c, a) && Lawful(schema, store) && Lists(rows, store, a) && rows != []
    ensures AgreesAt(Repopulate(c, schema, a, rows), schema, store, a)
  {
    var local := map[a := schema[a]];
    assert Clear(c, local, a) == Clear(c, schema, a);
    FoldLocal(Clear(c, schema, a), schema, a, rows);
    RefillAgreesLocally(c, local, store, a, rows);
    AgreesByAttribute(Repopulate(c, schema, a, rows), local, schema, store, a);
  }

  lemma {:induction false} AgreesByAttribute(c: Caches, local: Schema, schema: Schema, store: set<Aev>, a: int)
    requires a in local && a in schema && local[a] == schema[a] && Agrees(c, local, store)
    ensures AgreesAt(c, schema, store, a)
  {
    forall e, v ensures ForwardAgrees(c, schema, store, a, e, v) && ReverseAgrees(c, schema, store, a, e, v) {
      assert ForwardAgrees(c, local, store, a, e, v) && ReverseAgrees(c, local, store, a, e, v);
    }
  }

  lemma {:induction false} SameIffAgrees(c: Caches, c': Caches, schema: Schema, store: set<Aev>, a: int)
    requires a in schema && c'.forward == c.forward && c'.reverse == c.reverse && AgreesAt(c', schema, store, a)
    ensures SameAt(c, c', schema, a) <==> AgreesAt(c, schema, store, a)
  {
    if AgreesAt(c, schema, store, a) {
      forall e, v ensures SameAnswers(c, c', schema, a, e, v) {
        SameWhereAgreed(c, c', schema, store, a, e, v);
      }
    }
    if SameAt(c, c', schema, a) {
      forall e, v ensures ForwardAgrees(c, schema, store, a, e, v) && ReverseAgrees(c, schema, store, a, e, v) {
        assert SameAnswers(c, c', schema, a, e, v);
        assert ForwardAgrees(c', schema, store, a, e, v) && ReverseAgrees(c', schema, store, a, e, v);
      }
    }
  }

  lemma {:induction false} SameWhereAgreed(c: Caches, c': Caches, schema: Schema, store: set<Aev>, a: int, e: int,
      v: Value)
    requires a in schema && c'.forward == c.forward && c'.reverse == c.reverse
    requires AgreesAt(c, schema, store, a) && AgreesAt(c', schema, store, a)
    ensures SameAnswers(c, c', schema, a, e, v)
  {
    assert ForwardAgrees(c, schema, store, a, e, v) && ReverseAgrees(c, schema, store, a, e, v);
    assert ForwardAgrees(c', schema, store, a, e, v) && ReverseAgrees(c', schema, store, a, e, v);
    if a in c.forward && !schema[a].multival {
      forall w ensures ValueOf(c, schema, a, e) == Some(w) <==> ValueOf(c', schema, a, e) == Some(w) {
        assert ForwardAgrees(c, schema, store, a, e, w) && ForwardAgrees(c', schema, store, a, e, w);
      }
    }
    if a in c.reverse && schema[a].unique {
      forall x ensures Entid(c, a, v) == Some(x) <==> Entid(c', a, v) == Some(x) {
        assert ReverseAgrees(c, schema, store, a, x, v) && ReverseAgrees(c', schema, store, a, x, v);
      }
    }
  }

  /** Skipping a registration of directions that are cached already answers as a refill from the store
      would, if and only if the store has no rows of the attribute or the cache agrees with them. */
  lemma {:induction false} SkipIsRefillIff(c: Caches, schema: Schema, store: set<Aev>, a: int, fwd: bool, rev: bool,
      rows: seq<Aev>)
    requires a in schema && (fwd || rev) && (fwd ==> a in c.forward) && (rev ==> a in c.reverse)
    requires Lawful(schema, store) && Lists(rows, store, a)
    ensures SameAt(c, Register(c, schema, a, fwd, rev, rows), schema, a) <==>
            rows == [] || AgreesAt(c, schema, store, a)
  {
    assert c.forward + Just(fwd, a) == c.forward && c.reverse + Just(rev, a) == c.reverse;
    var c' := Repopulate(c, schema, a, rows);
    assert c' == Register(c, schema, a, fwd, rev, rows);
    if rows != [] {
      RefillAgrees(c, schema, store, a, rows);
      FoldKeepsFlags(Clear(c, schema, a), None, schema, rows, true);
      SameIffAgrees(c, c', schema, store, a);
    }
  }
}
