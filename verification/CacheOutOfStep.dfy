/** Transactions after which a cache fed by the watcher no longer answers as the fact table, one for
    each kind of lookup and each cause. */
module CacheOutOfStep {
  import opened Options
  import T = Transactor
  import opened TransactorIntent
  import opened AttributeCache
  import opened CacheStore
  import opened CacheWatcher
  import opened CacheFollows

  lemma {:induction false} OneRowView(rid: nat, row: T.CausetRow)
    ensures T.View(map[rid := row]) == {row.fact} && RowsOf(T.View(map[rid := row])) == {RowOf(row.fact)}
  {
    var d := map[rid := row];
    assert d[rid].fact in T.View(d);
    forall f | f in T.View(d) ensures f == row.fact {
      var r :| r in d && d[r].fact == f;
    }
    assert RowsOf({row.fact}) == {RowOf(row.fact)};
  }

  /** A transaction of a single term reports that term. */
  lemma {:induction false} OneTermReports(txn: T.Txn, t: T.SearchRow, cached: set<int>)
    requires (txn.exact == [t] && txn.inexact == []) || (txn.exact == [] && txn.inexact == [t])
    requires t.fact.a in cached
    ensures Reports(txn, cached, if t.added then [] else [RowOf(t.fact)], if t.added then [RowOf(t.fact)] else [])
  {
    assert [t][0] == t;
    forall f, added ensures Mentions([t], f, added) <==> f == t.fact && added == t.added {
    }
    forall f, added ensures !Mentions([], f, added) {
    }
    assert t.added ==> Asserted(txn, t.fact);
    assert !t.added ==> Named(txn, t.fact);
  }

  /** The non-unique reverse cache of one stored row, and of one row folded into it. */
  lemma {:induction false} OneEntry(c: Caches, sc: Schema, x: Value, row: Aev, add: bool)
    requires sc == map[10 := Attribute(false, false)] && row.a == 10 && row != Aev(10, 1, x)
    requires c == Caches({}, {10}, map[], map[], map[], map[10 := map[x := {1}]])
    ensures Agrees(c, sc, {Aev(10, 1, x)}) && Ready(c, sc, [row])
    ensures var rs, ts := if add then [] else [row], if add then [row] else [];
            1 in Members(Entids(Update(c, None, sc, rs, ts), 10, x))
  {
    forall a, e, v ensures ForwardAgrees(c, sc, {Aev(10, 1, x)}, a, e, v) &&
        ReverseAgrees(c, sc, {Aev(10, 1, x)}, a, e, v) {
    }
    var rs, ts := if add then [] else [row], if add then [row] else [];
    NonUniqueFold(c, sc, rs, false, 10, 1, x);
    FoldKeepsFlags(c, None, sc, rs, false);
    NonUniqueFold(Fold(c, None, sc, rs, false), sc, ts, true, 10, 1, x);
  }

  /** Replacing a value without naming it leaves the entity listed under the old value. */
  lemma {:induction false} ReplacementGoesStale() returns (st: T.Schema, sc: Schema, d: T.Causets, txn: T.Txn,
      d': T.Causets, c: Caches, ts: seq<Aev>)
    ensures Watched(st, sc, d, txn, d', c, [], ts) && 10 in sc && 10 in c.reverse && !sc[10].unique
    ensures var before := T.Number(5.0);
            && 1 in Members(Entids(Update(c, None, sc, [], ts), 10, before))
            && Aev(10, 1, before) !in RowsOf(T.View(d'))
  {
    var flags := T.Flags(false, false, false, false);
    var before, after := T.Fact(1, 10, T.Number(5.0), 5), T.Fact(1, 10, T.Number(7.0), 5);
    st, sc := map[10 := T.Attribute(false, 5)], map[10 := Attribute(false, false)];
    d, d' := map[0 := T.CausetRow(before, 100, flags)], map[1 := T.CausetRow(after, 101, flags)];
    var t := T.SearchRow(after, true, flags);
    txn := T.Txn(101, [], [t]);
    c := Caches({}, {10}, map[], map[], map[], map[10 := map[T.Number(5.0) := {1}]]);
    ts := [RowOf(after)];
    ReplacementMaterializes(st, d, txn, d', before, after, flags);
    OneTermReports(txn, t, {} + {10});
    OneRowView(0, d[0]);
    OneRowView(1, d'[1]);
    OneEntry(c, sc, T.Number(5.0), RowOf(after), true);
  }

  lemma {:induction false} ReplacementMaterializes(st: T.Schema, d: T.Causets, txn: T.Txn, d': T.Causets,
      before: T.Fact, after: T.Fact, flags: T.Flags)
    requires before.a in st && st[before.a] == T.Attribute(false, before.tag) && after == before.(v := after.v) &&
             after != before
    requires d == map[0 := T.CausetRow(before, 100, flags)] && d' == map[1 := T.CausetRow(after, 101, flags)]
    requires txn == T.Txn(101, [], [T.SearchRow(after, true, flags)])
    ensures T.Invariant(st, d) && T.Materialized(st, d, txn, d')
  {
    var t := txn.inexact[0];
    OneRowView(0, d[0]);
    assert T.Joins(T.Inexact, t, d[0]);
    var r := T.SearchResult(t, T.Inexact, 0, Some(T.Hit(0, before.v)));
    var rs := T.SearchResults(txn.exact, txn.inexact, d);
    assert rs == {r};
    assert T.RetractedIds(rs) == {0} && T.Additions(rs) == {r};
    var inserted := map[1 := r];
    assert inserted[1] == r && inserted.Values == {r};
    assert T.UpdatedBy(d, rs, 101, inserted, d');
  }

  /** Retracting 5 where 7 is stored empties the slot and leaves the entity listed under 7. */
  lemma {:induction false} StrayRetractionGoesStale() returns (st: T.Schema, sc: Schema, d: T.Causets, txn: T.Txn,
      d': T.Causets, c: Caches, rs: seq<Aev>)
    ensures Watched(st, sc, d, txn, d', c, rs, []) && 10 in sc && 10 in c.reverse && !sc[10].unique
    ensures !exists f :: Replaced(txn, f)
    ensures var stored := T.Number(7.0);
            && 1 in Members(Entids(Update(c, None, sc, rs, []), 10, stored))
            && Aev(10, 1, stored) !in RowsOf(T.View(d'))
  {
    var flags := T.Flags(false, false, false, false);
    var stored, named := T.Fact(1, 10, T.Number(7.0), 5), T.Fact(1, 10, T.Number(5.0), 5);
    st, sc := map[10 := T.Attribute(false, 5)], map[10 := Attribute(false, false)];
    d, d' := map[0 := T.CausetRow(stored, 100, flags)], map[];
    var t := T.SearchRow(named, false, flags);
    txn := T.Txn(101, [], [t]);
    c := Caches({}, {10}, map[], map[], map[], map[10 := map[T.Number(7.0) := {1}]]);
    rs := [RowOf(named)];
    StrayMaterializes(st, d, txn, stored, named, flags);
    OneTermReports(txn, t, {} + {10});
    OneRowView(0, d[0]);
    OneEntry(c, sc, T.Number(7.0), RowOf(named), false);
  }

  lemma {:induction false} StrayMaterializes(st: T.Schema, d: T.Causets, txn: T.Txn, stored: T.Fact, named: T.Fact,
      flags: T.Flags)
    requires stored.a in st && st[stored.a] == T.Attribute(false, stored.tag) && named == stored.(v := named.v)
    requires d == map[0 := T.CausetRow(stored, 100, flags)] && txn == T.Txn(101, [], [T.SearchRow(named, false, flags)])
    ensures T.Invariant(st, d) && T.Materialized(st, d, txn, map[])
  {
    var t := txn.inexact[0];
    OneRowView(0, d[0]);
    assert T.Joins(T.Inexact, t, d[0]);
    var r := T.SearchResult(t, T.Inexact, 0, Some(T.Hit(0, stored.v)));
    var rs := T.SearchResults(txn.exact, txn.inexact, d);
    assert rs == {r};
    assert T.RetractedIds(rs) == {0} && T.Additions(rs) == {};
    assert T.UpdatedBy(d, rs, 101, map[], map[]);
  }

  /** Retracting a unique value from an entity that does not hold it changes nothing in the store and
      makes the cache forget who does. */
  lemma {:induction false} ForeignRetractionGoesStale() returns (st: T.Schema, sc: Schema, d: T.Causets, txn: T.Txn,
      c: Caches, rs: seq<Aev>)
    ensures Watched(st, sc, d, txn, d, c, rs, []) && 10 in sc && 10 in c.reverse && sc[10].unique
    ensures var held := T.Number(7.0);
            && Entid(c, 10, held) == Some(1) && Entid(Update(c, None, sc, rs, []), 10, held) == None
            && Aev(10, 1, held) in RowsOf(T.View(d))
  {
    var flags := T.Flags(true, false, false, true);
    var stored, named := T.Fact(1, 10, T.Number(7.0), 5), T.Fact(2, 10, T.Number(7.0), 5);
    st, sc := map[10 := T.Attribute(true, 5)], map[10 := Attribute(true, true)];
    d := map[0 := T.CausetRow(stored, 100, flags)];
    var t := T.SearchRow(named, false, flags);
    txn := T.Txn(101, [t], []);
    c := Caches({}, {10}, map[], map[], map[10 := map[T.Number(7.0) := Some(1)]], map[]);
    rs := [RowOf(named)];
    ForeignMaterializes(st, d, txn, stored, named, flags);
    OneTermReports(txn, t, {} + {10});
    OneRowView(0, d[0]);
    var store := {RowOf(stored)};
    forall a, e, v ensures ForwardAgrees(c, sc, store, a, e, v) && ReverseAgrees(c, sc, store, a, e, v) {
    }
    assert NamesValue(txn, 10, T.Number(7.0)) by {
      assert txn.exact[0] == t && Named(txn, named);
    }
    UniqueAfter(st, sc, d, txn, d, c, rs, [], 10, T.Number(7.0));
  }

  lemma {:induction false} ForeignMaterializes(st: T.Schema, d: T.Causets, txn: T.Txn, stored: T.Fact, named: T.Fact,
      flags: T.Flags)
    requires stored.a in st && st[stored.a] == T.Attribute(true, stored.tag) && named == stored.(e := named.e) &&
             named != stored
    requires d == map[0 := T.CausetRow(stored, 100, flags)] && txn == T.Txn(101, [T.SearchRow(named, false, flags)], [])
    ensures T.Invariant(st, d) && T.Materialized(st, d, txn, d)
  {
    var t := txn.exact[0];
    OneRowView(0, d[0]);
    var r := T.SearchResult(t, T.Exact, 0, None);
    var rs := T.SearchResults(txn.exact, txn.inexact, d);
    assert rs == {r};
    assert T.RetractedIds(rs) == {} && T.Additions(rs) == {};
    assert T.UpdatedBy(d, rs, 101, map[], d);
  }

  /** A transaction of two cardinality-one terms, one of each kind, reports both. */
  lemma {:induction false} TwoTermsReport(txn: T.Txn, t: T.SearchRow, u: T.SearchRow, cached: set<int>)
    requires txn.exact == [] && txn.inexact == [t, u] && t.added && !u.added
    requires t.fact.a in cached && u.fact.a in cached
    ensures Reports(txn, cached, [RowOf(u.fact)], [RowOf(t.fact)])
  {
    assert [t, u][0] == t && [t, u][1] == u;
    forall f ensures Asserted(txn, f) <==> f == t.fact {
    }
    forall f ensures Named(txn, f) <==> f == u.fact {
    }
  }

  /** Asserting the stored 7 and retracting 5 of the same slot removes the 7 that was asked for, and the
      forward cache keeps it. */
  lemma {:induction false} AssertedGoesStale() returns (st: T.Schema, sc: Schema, d: T.Causets, txn: T.Txn,
      d': T.Causets, c: Caches, rs: seq<Aev>, ts: seq<Aev>)
    ensures Watched(st, sc, d, txn, d', c, rs, ts) && 10 in sc && 10 in c.forward && !sc[10].multival
    ensures var stored := T.Fact(1, 10, T.Number(7.0), 5);
            && stored in T.View(d) && Asserted(txn, stored) && stored !in T.View(d')
            && ValueOf(Update(c, None, sc, rs, ts), sc, 10, 1) == Some(T.Number(7.0))
            && !ForwardAgrees(Update(c, None, sc, rs, ts), sc, RowsOf(T.View(d')), 10, 1, T.Number(7.0))
  {
    var flags := T.Flags(false, false, false, false);
    var stored, named := T.Fact(1, 10, T.Number(7.0), 5), T.Fact(1, 10, T.Number(5.0), 5);
    st, sc := map[10 := T.Attribute(false, 5)], map[10 := Attribute(false, false)];
    d, d' := map[0 := T.CausetRow(stored, 100, flags)], map[];
    var t, u := T.SearchRow(stored, true, flags), T.SearchRow(named, false, flags);
    txn := T.Txn(101, [], [t, u]);
    c := Caches({10}, {}, map[10 := map[1 := Some(T.Number(7.0))]], map[], map[], map[]);
    rs, ts := [RowOf(named)], [RowOf(stored)];
    AssertedMaterializes(st, d, txn, stored, named, flags);
    TwoTermsReport(txn, t, u, {10} + {});
    OneRowView(0, d[0]);
    OneValue(c, sc, T.Number(7.0), T.Number(5.0));
    assert txn.inexact[0] == t;
    assert RowsOf(T.View(map[])) == {};
  }

  lemma {:induction false} OneValue(c: Caches, sc: Schema, x: Value, y: Value)
    requires sc == map[10 := Attribute(false, false)]
    requires c == Caches({10}, {}, map[10 := map[1 := Some(x)]], map[], map[], map[])
    ensures Agrees(c, sc, {Aev(10, 1, x)}) && Ready(c, sc, [Aev(10, 1, y)]) && Ready(c, sc, [Aev(10, 1, x)])
    ensures var c' := Update(c, None, sc, [Aev(10, 1, y)], [Aev(10, 1, x)]);
            ValueOf(c', sc, 10, 1) == Some(x) && !ForwardAgrees(c', sc, {}, 10, 1, x)
  {
    var ts := [Aev(10, 1, x)];
    FoldKeepsFlags(c, None, sc, [Aev(10, 1, y)], false);
    var c1 := Fold(c, None, sc, [Aev(10, 1, y)], false);
    SingleFold(c1, sc, ts, true, 10, 1);
    FoldKeepsFlags(c1, None, sc, ts, true);
    assert ts[0] == Aev(10, 1, x);
    assert InSlot(ts, 10, 1);
    forall a, e, v ensures ForwardAgrees(c, sc, {Aev(10, 1, x)}, a, e, v) &&
        ReverseAgrees(c, sc, {Aev(10, 1, x)}, a, e, v) {
    }
  }

  lemma {:induction false} AssertedMaterializes(st: T.Schema, d: T.Causets, txn: T.Txn, stored: T.Fact, named: T.Fact,
      flags: T.Flags)
    requires stored.a in st && st[stored.a] == T.Attribute(false, stored.tag) && named == stored.(v := named.v)
    requires named != stored && d == map[0 := T.CausetRow(stored, 100, flags)]
    requires txn == T.Txn(101, [], [T.SearchRow(stored, true, flags), T.SearchRow(named, false, flags)])
    ensures T.Invariant(st, d) && T.Materialized(st, d, txn, map[])
  {
    var t, u := txn.inexact[0], txn.inexact[1];
    OneRowView(0, d[0]);
    TwoHits(d, t, u);
    HitsRetract(t, u, stored.v);
    assert T.UpdatedBy(d, T.SearchResults(txn.exact, txn.inexact, d), 101, map[], map[]);
  }

  /** Asserting the value that is stored adds nothing, and retracting another strikes the row. */
  lemma {:induction false} HitsRetract(t: T.SearchRow, u: T.SearchRow, v: Value)
    requires t.added && !u.added && t.fact.v == v
    ensures var hit := Some(T.Hit(0, v));
            var rs := {T.SearchResult(t, T.Inexact, 0, hit), T.SearchResult(u, T.Inexact, 1, hit)};
            T.RetractedIds(rs) == {0} && T.Additions(rs) == {}
  {
    var s := T.SearchResult(u, T.Inexact, 1, Some(T.Hit(0, v)));
    assert T.IsRetraction(s) && s.hit.value.rid == 0;
  }

  /** Two inexact searches of the one stored slot. */
  lemma {:induction false} TwoHits(d: T.Causets, t: T.SearchRow, u: T.SearchRow)
    requires d.Keys == {0} && T.Joins(T.Inexact, t, d[0]) && T.Joins(T.Inexact, u, d[0])
    ensures var hit := Some(T.Hit(0, d[0].fact.v));
            T.SearchResults([], [t, u], d) ==
                {T.SearchResult(t, T.Inexact, 0, hit), T.SearchResult(u, T.Inexact, 1, hit)}
  {
    var hit := Some(T.Hit(0, d[0].fact.v));
    var r, s, rs := T.SearchResult(t, T.Inexact, 0, hit), T.SearchResult(u, T.Inexact, 1, hit),
        T.SearchResults([], [t, u], d);
    assert [t, u][0] == t && [t, u][1] == u;
    assert r in rs && s in rs;
    forall x | x in rs ensures x in {r, s} {
      assert x in T.LeftJoin(T.Inexact, [t, u], d);
    }
  }
}
