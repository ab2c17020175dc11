/** What a multi-valued lookup lists, and in which order. */
module CacheVectors {
  import opened Options
  import opened Sequences
  import opened AttributeCache
  import opened CacheStore
  import opened CacheWatcher

  /** The values left when some are taken out, in their old order. */
  ghost function Survivors(vs: seq<Value>, gone: set<Value>): seq<Value> {
    if vs == [] then []
    else
      var n := |vs| - 1;
      Survivors(vs[..n], gone) + if vs[n] in gone then [] else [vs[n]]
  }

  /** The values that rows give to one entity and attribute, in the order of the rows. */
  ghost function GivenTo(rows: seq<Aev>, a: int, e: int): seq<Value> {
    if rows == [] then []
    else
      var n := |rows| - 1;
      GivenTo(rows[..n], a, e) + if rows[n].a == a && rows[n].e == e then [rows[n].v] else []
  }

  lemma {:induction false} SurvivorsFirst(vs: seq<Value>, gone: set<Value>)
    requires vs != []
    ensures Survivors(vs, gone) == (if vs[0] in gone then [] else [vs[0]]) + Survivors(vs[1..], gone)
    decreases |vs|
  {
    var n := |vs| - 1;
    if n > 0 {
      SurvivorsFirst(vs[..n], gone);
      assert vs[1..][..n - 1] == vs[..n][1..];
    }
  }

  /** Removing a value leaves the others in their old order. */
  lemma {:induction false} RemoveEverySurvivors(vs: seq<Value>, v: Value)
    ensures RemoveEvery(vs, v) == Survivors(vs, {v})
  {
    if vs != [] {
      RemoveEverySurvivors(vs[1..], v);
      SurvivorsFirst(vs, {v});
    }
  }

  lemma {:induction false} SurvivorsTwice(vs: seq<Value>, gone: set<Value>, more: set<Value>)
    ensures Survivors(Survivors(vs, gone), more) == Survivors(vs, gone + more)
    decreases |vs|
  {
    if vs != [] {
      var n := |vs| - 1;
      SurvivorsTwice(vs[..n], gone, more);
      if vs[n] !in gone {
        assert (Survivors(vs[..n], gone) + [vs[n]])[..|Survivors(vs[..n], gone)|] == Survivors(vs[..n], gone);
      } else {
        assert Survivors(vs, gone) == Survivors(vs[..n], gone);
      }
    }
  }

  lemma {:induction false} GivenFirst(rows: seq<Aev>, a: int, e: int)
    requires rows != []
    ensures GivenTo(rows, a, e) ==
            (if rows[0].a == a && rows[0].e == e then [rows[0].v] else []) + GivenTo(rows[1..], a, e)
    decreases |rows|
  {
    var n := |rows| - 1;
    if n > 0 {
      GivenFirst(rows[..n], a, e);
      assert rows[1..][..n - 1] == rows[..n][1..];
    }
  }

  ghost function Among(vs: seq<Value>): set<Value> {
    set i | 0 <= i < |vs| :: vs[i]
  }

  lemma {:induction false} AmongFirst(v: Value, vs: seq<Value>)
    ensures Among([v] + vs) == {v} + Among(vs)
  {
    var all := [v] + vs;
    assert forall i | 0 <= i < |vs| :: all[i + 1] == vs[i];
    assert all[0] in Among(all);
  }

  lemma {:induction false} NoneGone(vs: seq<Value>)
    ensures Survivors(vs, {}) == vs
    decreases |vs|
  {
    if vs != [] {
      NoneGone(vs[..|vs| - 1]);
    }
  }

  lemma {:induction false} VectorRetracted(c: Caches, schema: Schema, rows: seq<Aev>, a: int, e: int)
    requires Ready(c, schema, rows) && Vectors(c, schema, a)
    ensures Vec(Values(Fold(c, None, schema, rows, false), schema, a, e)) ==
            Survivors(Vec(Values(c, schema, a, e)), Among(GivenTo(rows, a, e)))
    decreases |rows|
  {
    var vs := Vec(Values(c, schema, a, e));
    if rows == [] {
      assert Among(GivenTo(rows, a, e)) == {};
      NoneGone(vs);
    } else {
      var rest := GivenTo(rows[1..], a, e);
      VecStep(c, schema, rows[0], false, a, e);
      VectorRetracted(Step(c, None, schema, rows[0], false), schema, rows[1..], a, e);
      GivenFirst(rows, a, e);
      if rows[0].a == a && rows[0].e == e {
        RemoveEverySurvivors(vs, rows[0].v);
        SurvivorsTwice(vs, {rows[0].v}, Among(rest));
        AmongFirst(rows[0].v, rest);
      } else {
        assert [] + rest == rest;
      }
    }
  }

  lemma {:induction false} VectorAsserted(c: Caches, schema: Schema, rows: seq<Aev>, a: int, e: int)
    requires Ready(c, schema, rows) && Vectors(c, schema, a)
    ensures Vec(Values(Fold(c, None, schema, rows, true), schema, a, e)) ==
            Vec(Values(c, schema, a, e)) + GivenTo(rows, a, e)
    decreases |rows|
  {
    if rows != [] {
      var vs, rest := Vec(Values(c, schema, a, e)), GivenTo(rows[1..], a, e);
      VecStep(c, schema, rows[0], true, a, e);
      VectorAsserted(Step(c, None, schema, rows[0], true), schema, rows[1..], a, e);
      GivenFirst(rows, a, e);
      Associate(vs, if rows[0].a == a && rows[0].e == e then [rows[0].v] else [], rest);
    }
  }

  /** After an update a multi-valued lookup lists the values that were not retracted, in their old order,
      and then those asserted, in the order of the rows. */
  lemma {:induction false} VectorAfterUpdate(c: Caches, schema: Schema, rs: seq<Aev>, ts: seq<Aev>, a: int, e: int)
    requires Ready(c, schema, rs) && Ready(c, schema, ts) && Vectors(c, schema, a)
    ensures Vec(Values(Update(c, None, schema, rs, ts), schema, a, e)) ==
            Survivors(Vec(Values(c, schema, a, e)), Among(GivenTo(rs, a, e))) + GivenTo(ts, a, e)
  {
    FoldKeepsFlags(c, None, schema, rs, false);
    VectorRetracted(c, schema, rs, a, e);
    VectorAsserted(Fold(c, None, schema, rs, false), schema, ts, a, e);
  }

  // ---------- behind the watcher ----------

  /** The values that terms give to one entity and attribute, in the order of the terms. */
  ghost function TermValues(seen: seq<Term>, add: bool, a: int, e: int): seq<Value> {
    if seen == [] then []
    else
      var n := |seen| - 1;
      var term := seen[n];
      TermValues(seen[..n], add, a, e) + if term == Term(add, Aev(a, e, term.row.v)) then [term.row.v] else []
  }

  lemma {:induction false} GivenOfAttribute(rows: seq<Aev>, a: int, e: int)
    ensures GivenTo(OfAttribute(rows, a), a, e) == GivenTo(rows, a, e)
    decreases |rows|
  {
    if rows != [] {
      var n := |rows| - 1;
      GivenOfAttribute(rows[..n], a, e);
      var before := OfAttribute(rows[..n], a);
      if rows[n].a == a {
        assert (before + [rows[n]])[..|before|] == before;
      } else {
        assert OfAttribute(rows, a) == before;
      }
    }
  }

  lemma {:induction false} GivenAsked(seen: seq<Term>, add: bool, a: int, e: int)
    ensures GivenTo(Asked(seen, add, a), a, e) == TermValues(seen, add, a, e)
    decreases |seen|
  {
    if seen != [] {
      var n := |seen| - 1;
      GivenAsked(seen[..n], add, a, e);
      var before := Asked(seen[..n], add, a);
      if seen[n].add == add && seen[n].row.a == a {
        assert (before + [seen[n].row])[..|before|] == before;
      } else {
        assert Asked(seen, add, a) == before;
      }
    }
  }

  /** Once the watcher has handed over the terms it saw, a multi-valued lookup lists the values that no
      term retracts, in their old order, and then those asserted, in the order of the terms. */
  lemma {:induction false} VectorAfterTerms(c: Caches, schema: Schema, seen: seq<Term>, rs: seq<Aev>, ts: seq<Aev>,
      a: int, e: int)
    requires Ready(c, schema, rs) && Ready(c, schema, ts) && Vectors(c, schema, a)
    requires OfAttribute(rs, a) == Asked(seen, false, a) && OfAttribute(ts, a) == Asked(seen, true, a)
    ensures Vec(Values(Update(c, None, schema, rs, ts), schema, a, e)) ==
            Survivors(Vec(Values(c, schema, a, e)), Among(TermValues(seen, false, a, e))) +
            TermValues(seen, true, a, e)
  {
    VectorAfterUpdate(c, schema, rs, ts, a, e);
    GivenOfAttribute(rs, a, e);
    GivenOfAttribute(ts, a, e);
    GivenAsked(seen, false, a, e);
    GivenAsked(seen, true, a, e);
  }
}
