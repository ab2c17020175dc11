/** A cache fed by the watcher against the fact table: the watcher reports what a transaction asks
    for, not what the store ends up changing.  For each kind of lookup this module says exactly when
    the two amount to the same. */
module CacheFollows {
  import opened Options
  import opened Sorting
  import T = Transactor
  import opened TransactorIntent
  import opened AttributeCache
  import opened CacheStore
  import opened CacheWatcher

  /** The two schemas speak of the same attributes. */
  ghost predicate SameSchema(st: T.Schema, sc: Schema) {
    forall a | a in sc :: a in st && st[a].multival == sc[a].multival
  }

  /** A cache that agrees with the table, and a transaction that succeeds and is reported to it. */
  ghost predicate Watched(st: T.Schema, sc: Schema, d: T.Causets, txn: T.Txn, d': T.Causets, c: Caches, rs: seq<Aev>,
      ts: seq<Aev>)
  {
    && T.Invariant(st, d) && T.Materialized(st, d, txn, d')
    && SameSchema(st, sc) && Agrees(c, sc, RowsOf(T.View(d)))
    && Reports(txn, c.forward + c.reverse, rs, ts) && Ready(c, sc, rs) && Ready(c, sc, ts)
  }

  ghost predicate OfSchema(st: T.Schema, sc: Schema, f: T.Fact) {
    f.a in sc && f.a in st && f.tag == st[f.a].tag
  }

  // ---------- one fact ----------

  lemma {:induction false} RowInView(st: T.Schema, fs: set<T.Fact>, f: T.Fact)
    requires T.ViewTyped(st, fs) && f.a in st && f.tag == st[f.a].tag
    ensures RowOf(f) in RowsOf(fs) <==> f in fs
  {
  }

  /** One fact before and after, and in the report. */
  lemma {:induction false} FactWatched(st: T.Schema, sc: Schema, d: T.Causets, txn: T.Txn, d': T.Causets, c: Caches,
      rs: seq<Aev>, ts: seq<Aev>, f: T.Fact)
    requires Watched(st, sc, d, txn, d', c, rs, ts) && OfSchema(st, sc, f) && Cached(c, f.a)
    ensures RowOf(f) in RowsOf(T.View(d)) <==> f in T.View(d)
    ensures RowOf(f) in RowsOf(T.View(d')) <==> if f in T.View(d) then !Struck(txn, f) else Asserted(txn, f)
    ensures Asserted(txn, f) ==> !Named(txn, f) && !Replaced(txn, f)
    ensures RowOf(f) in rs <==> Named(txn, f)
    ensures RowOf(f) in ts <==> Asserted(txn, f)
  {
    T.CardinalityKept(st, d, txn, d');
    ViewAfter(st, d, txn, d', f);
    RowInView(st, T.View(d), f);
    RowInView(st, T.View(d'), f);
    RowReported(st, txn, c.forward + c.reverse, rs, ts, f);
  }

  lemma {:induction false} RowReported(st: T.Schema, txn: T.Txn, cached: set<int>, rs: seq<Aev>, ts: seq<Aev>,
      f: T.Fact)
    requires T.Routed(st, txn) && Reports(txn, cached, rs, ts) && f.a in cached && f.a in st && f.tag == st[f.a].tag
    ensures RowOf(f) in rs <==> Named(txn, f)
    ensures RowOf(f) in ts <==> Asserted(txn, f)
  {
  }

  // ---------- single-valued forward lookups ----------

  ghost predicate InSlot(rows: seq<Aev>, a: int, e: int) {
    exists v :: Aev(a, e, v) in rows
  }

  lemma {:induction false} SingleStep(c: Caches, schema: Schema, row: Aev, add: bool, a: int, e: int)
    requires row.a in schema && a in schema && a in c.forward && !schema[a].multival
    ensures ValueOf(Step(c, None, schema, row, add), schema, a, e) ==
            if row.a != a || row.e != e then ValueOf(c, schema, a, e) else if add then Some(row.v) else None
  {
  }

  /** The last row of a slot decides its value. */
  lemma {:induction false} SingleFold(c: Caches, schema: Schema, rows: seq<Aev>, add: bool, a: int, e: int)
    requires Ready(c, schema, rows) && a in schema && a in c.forward && !schema[a].multival
    ensures var after := ValueOf(Fold(c, None, schema, rows, add), schema, a, e);
            if !InSlot(rows, a, e) then after == ValueOf(c, schema, a, e)
            else if add then after.Some? && Aev(a, e, after.value) in rows
            else after.None?
    decreases |rows|
  {
    if rows != [] {
      SingleStep(c, schema, rows[0], add, a, e);
      SingleFold(Step(c, None, schema, rows[0], add), schema, rows[1..], add, a, e);
      forall v ensures Aev(a, e, v) in rows <==> rows[0] == Aev(a, e, v) || Aev(a, e, v) in rows[1..] {
      }
      if InSlot(rows[1..], a, e) {
        assert InSlot(rows, a, e);
      } else if rows[0].a == a && rows[0].e == e {
        assert rows[0] == Aev(a, e, rows[0].v);
        assert InSlot(rows, a, e);
      }
    }
  }

  lemma {:induction false} SlotNamed(st: T.Schema, txn: T.Txn, cached: set<int>, rs: seq<Aev>, ts: seq<Aev>, f: T.Fact)
    requires T.Routed(st, txn) && Reports(txn, cached, rs, ts) && f.a in cached && f.a in st && !st[f.a].multival
    ensures InSlot(rs, f.a, f.e) <==> SlotRetracted(txn, f)
    ensures Named(txn, f) ==> SlotRetracted(txn, f)
  {
    if v :| Aev(f.a, f.e, v) in rs {
      var g :| Named(txn, g) && RowOf(g) == Aev(f.a, f.e, v);
      var i :| 0 <= i < |txn.inexact| && txn.inexact[i].fact == g && !txn.inexact[i].added;
      assert SameSlot(txn.inexact[i], f);
    }
    if i :| 0 <= i < |txn.inexact| && !txn.inexact[i].added && SameSlot(txn.inexact[i], f) {
      assert Named(txn, txn.inexact[i].fact);
      assert RowOf(txn.inexact[i].fact) in rs;
    }
  }

  lemma {:induction false} SlotAsserted(st: T.Schema, txn: T.Txn, cached: set<int>, rs: seq<Aev>, ts: seq<Aev>,
      f: T.Fact, v: Value)
    requires T.Routed(st, txn) && T.UniqueInexact(txn.inexact) && Reports(txn, cached, rs, ts)
    requires f.a in cached && f.a in st && f.tag == st[f.a].tag && !st[f.a].multival
    requires Aev(f.a, f.e, v) in ts
    ensures v != f.v ==> Replaced(txn, f) && !Asserted(txn, f)
  {
    var g :| Asserted(txn, g) && RowOf(g) == Aev(f.a, f.e, v);
    var i :| 0 <= i < |txn.inexact| && txn.inexact[i].fact == g && txn.inexact[i].added;
    assert SameSlot(txn.inexact[i], f);
    if Asserted(txn, f) {
      var j :| 0 <= j < |txn.inexact| && txn.inexact[j].fact == f && txn.inexact[j].added;
    }
  }

  lemma {:induction false} ReplacedInSlot(st: T.Schema, txn: T.Txn, cached: set<int>, rs: seq<Aev>, ts: seq<Aev>,
      f: T.Fact)
    requires T.Routed(st, txn) && Reports(txn, cached, rs, ts) && f.a in cached && Replaced(txn, f)
    ensures InSlot(ts, f.a, f.e)
  {
    var i :| 0 <= i < |txn.inexact| && txn.inexact[i].added && SameSlot(txn.inexact[i], f);
    assert Asserted(txn, txn.inexact[i].fact);
    assert RowOf(txn.inexact[i].fact) in ts;
  }

  /** A single-valued lookup follows the store except where the transaction asserts the stored value
      and retracts the slot all the same. */
  lemma {:induction false} SingleFollowsIff(st: T.Schema, sc: Schema, d: T.Causets, txn: T.Txn, d': T.Causets,
      c: Caches, rs: seq<Aev>, ts: seq<Aev>, f: T.Fact)
    requires Watched(st, sc, d, txn, d', c, rs, ts) && OfSchema(st, sc, f)
    requires f.a in c.forward && !sc[f.a].multival
    ensures ForwardAgrees(Update(c, None, sc, rs, ts), sc, RowsOf(T.View(d')), f.a, f.e, f.v) <==>
            !(f in T.View(d) && Asserted(txn, f) && SlotRetracted(txn, f))
  {
    var c1 := Fold(c, None, sc, rs, false);
    SingleFold(c, sc, rs, false, f.a, f.e);
    FoldKeepsFlags(c, None, sc, rs, false);
    SingleFold(c1, sc, ts, true, f.a, f.e);
    FoldKeepsFlags(c1, None, sc, ts, true);
    FactWatched(st, sc, d, txn, d', c, rs, ts, f);
    SlotNamed(st, txn, c.forward + c.reverse, rs, ts, f);
    assert ForwardAgrees(c, sc, RowsOf(T.View(d)), f.a, f.e, f.v);
    var after := ValueOf(Update(c, None, sc, rs, ts), sc, f.a, f.e);
    if InSlot(ts, f.a, f.e) {
      SlotAsserted(st, txn, c.forward + c.reverse, rs, ts, f, after.value);
    } else {
      assert !Asserted(txn, f);
      if Replaced(txn, f) {
        ReplacedInSlot(st, txn, c.forward + c.reverse, rs, ts, f);
      }
    }
  }

  // ---------- vectors ----------

  lemma {:induction false} MultiRetractions(c: Caches, schema: Schema, rows: seq<Aev>, x: Aev)
    requires Ready(c, schema, rows) && Vectors(c, schema, x.a)
    ensures Listed(Fold(c, None, schema, rows, false), schema, x) == if x in rows then 0 else Listed(c, schema, x)
    decreases |rows|
  {
    if rows != [] {
      MultiStep(c, schema, rows[0], false, x);
      MultiRetractions(Step(c, None, schema, rows[0], false), schema, rows[1..], x);
    }
  }

  lemma {:induction false} MultivalNotStruck(st: T.Schema, txn: T.Txn, f: T.Fact)
    requires T.Routed(st, txn) && f.a in st && st[f.a].multival
    ensures Struck(txn, f) <==> Named(txn, f)
  {
  }

  /** A vector lists the stored values, each once, except where the transaction asserts a stored one. */
  lemma {:induction false} VectorFollowsIff(st: T.Schema, sc: Schema, d: T.Causets, txn: T.Txn, d': T.Causets,
      c: Caches, rs: seq<Aev>, ts: seq<Aev>, f: T.Fact)
    requires Watched(st, sc, d, txn, d', c, rs, ts) && OfSchema(st, sc, f) && Vectors(c, sc, f.a)
    ensures ForwardAgrees(Update(c, None, sc, rs, ts), sc, RowsOf(T.View(d')), f.a, f.e, f.v) <==>
            !(f in T.View(d) && Asserted(txn, f))
  {
    var c1 := Fold(c, None, sc, rs, false);
    MultiRetractions(c, sc, rs, RowOf(f));
    FoldKeepsFlags(c, None, sc, rs, false);
    MultiAdditions(c1, sc, ts, RowOf(f));
    FoldKeepsFlags(c1, None, sc, ts, true);
    DistinctCount(ts, RowOf(f));
    FactWatched(st, sc, d, txn, d', c, rs, ts, f);
    MultivalNotStruck(st, txn, f);
    assert ForwardAgrees(c, sc, RowsOf(T.View(d)), f.a, f.e, f.v);
  }

  // ---------- non-unique reverse lookups ----------

  lemma {:induction false} NonUniqueStep(c: Caches, schema: Schema, row: Aev, add: bool, a: int, e: int, v: Value)
    requires row.a in schema && a in schema && a in c.reverse && !schema[a].unique
    ensures e in Members(Entids(Step(c, None, schema, row, add), a, v)) <==>
            if add then e in Members(Entids(c, a, v)) || row == Aev(a, e, v)
            else e in Members(Entids(c, a, v)) && row != Aev(a, e, v)
  {
  }

  /** Folding rows into a non-unique reverse cache is set arithmetic, whatever the rows. */
  lemma {:induction false} NonUniqueFold(c: Caches, schema: Schema, rows: seq<Aev>, add: bool, a: int, e: int, v: Value)
    requires Ready(c, schema, rows) && a in schema && a in c.reverse && !schema[a].unique
    ensures e in Members(Entids(Fold(c, None, schema, rows, add), a, v)) <==>
            if add then e in Members(Entids(c, a, v)) || Aev(a, e, v) in rows
            else e in Members(Entids(c, a, v)) && Aev(a, e, v) !in rows
    decreases |rows|
  {
    if rows != [] {
      var c' := Step(c, None, schema, rows[0], add);
      NonUniqueStep(c, schema, rows[0], add, a, e, v);
      NonUniqueFold(c', schema, rows[1..], add, a, e, v);
      assert Aev(a, e, v) in rows <==> rows[0] == Aev(a, e, v) || Aev(a, e, v) in rows[1..];
    }
  }

  /** An entity is listed under its stored values, except under one that gives way, to another value
      or to a retraction of the slot, without being named. */
  lemma {:induction false} ReverseFollowsIffNamed(st: T.Schema, sc: Schema, d: T.Causets, txn: T.Txn, d': T.Causets,
      c: Caches, rs: seq<Aev>, ts: seq<Aev>, f: T.Fact)
    requires Watched(st, sc, d, txn, d', c, rs, ts) && OfSchema(st, sc, f)
    requires f.a in c.reverse && !sc[f.a].unique
    ensures ReverseAgrees(Update(c, None, sc, rs, ts), sc, RowsOf(T.View(d')), f.a, f.e, f.v) <==>
            (f in T.View(d) && (Replaced(txn, f) || SlotRetracted(txn, f)) ==> Named(txn, f))
  {
    var c1 := Fold(c, None, sc, rs, false);
    NonUniqueFold(c, sc, rs, false, f.a, f.e, f.v);
    FoldKeepsFlags(c, None, sc, rs, false);
    NonUniqueFold(c1, sc, ts, true, f.a, f.e, f.v);
    FoldKeepsFlags(c1, None, sc, ts, true);
    FactWatched(st, sc, d, txn, d', c, rs, ts, f);
    assert ReverseAgrees(c, sc, RowsOf(T.View(d)), f.a, f.e, f.v);
  }

  // ---------- unique reverse lookups ----------

  /** The entity of the last row with this attribute and value. */
  ghost function LatestFor(rows: seq<Aev>, a: int, v: Value): (r: Option<int>)
    ensures r.Some? ==> Aev(a, r.value, v) in rows
    ensures r.None? ==> forall e :: Aev(a, e, v) !in rows
  {
    if rows == [] then None
    else
      var later := LatestFor(rows[1..], a, v);
      if later.None? && rows[0].a == a && rows[0].v == v then assert rows[0] == Aev(a, rows[0].e, v); Some(rows[0].e)
      else later
  }

  lemma {:induction false} UniqueStep(c: Caches, schema: Schema, row: Aev, add: bool, a: int, v: Value)
    requires row.a in schema && a in schema && a in c.reverse && schema[a].unique
    ensures Entid(Step(c, None, schema, row, add), a, v) ==
            if row.a != a || row.v != v then Entid(c, a, v) else if add then Some(row.e) else None
  {
  }

  lemma {:induction false} UniqueFold(c: Caches, schema: Schema, rows: seq<Aev>, add: bool, a: int, v: Value)
    requires Ready(c, schema, rows) && a in schema && a in c.reverse && schema[a].unique
    ensures var latest := LatestFor(rows, a, v);
            Entid(Fold(c, None, schema, rows, add), a, v) ==
            if latest.None? then Entid(c, a, v) else if add then latest else None
    decreases |rows|
  {
    if rows != [] {
      UniqueStep(c, schema, rows[0], add, a, v);
      UniqueFold(Step(c, None, schema, rows[0], add), schema, rows[1..], add, a, v);
    }
  }

  /** The transaction retracts the value from some entity, not necessarily the one that holds it. */
  ghost predicate NamesValue(txn: T.Txn, a: int, v: Value) {
    exists g :: Named(txn, g) && g.a == a && g.v == v
  }

  lemma {:induction false} NamedValueReported(txn: T.Txn, cached: set<int>, rs: seq<Aev>, ts: seq<Aev>, a: int,
      v: Value)
    requires Reports(txn, cached, rs, ts) && a in cached
    ensures LatestFor(rs, a, v).Some? <==> NamesValue(txn, a, v)
  {
    if e :| Aev(a, e, v) in rs {
      var g :| Named(txn, g) && RowOf(g) == Aev(a, e, v);
      assert NamesValue(txn, a, v);
    }
    if g :| Named(txn, g) && g.a == a && g.v == v {
      assert RowOf(g) == Aev(a, g.e, v) && RowOf(g) in rs;
    }
  }

  /** Where the value is asserted, the last assertion must not restore a fact whose slot is retracted;
      where it is not, it must be named, of whatever entity, exactly if the stored fact is struck. */
  ghost predicate KeepsUnique(txn: T.Txn, ts: seq<Aev>, f: T.Fact) {
    match LatestFor(ts, f.a, f.v)
    case Some(e) => e == f.e ==> !SlotRetracted(txn, f)
    case None => NamesValue(txn, f.a, f.v) <==> Struck(txn, f)
  }

  lemma {:induction false} UniqueAfter(st: T.Schema, sc: Schema, d: T.Causets, txn: T.Txn, d': T.Causets, c: Caches,
      rs: seq<Aev>, ts: seq<Aev>, a: int, v: Value)
    requires Watched(st, sc, d, txn, d', c, rs, ts) && a in sc && a in c.reverse && sc[a].unique
    ensures Entid(Update(c, None, sc, rs, ts), a, v) ==
            if LatestFor(ts, a, v).Some? then LatestFor(ts, a, v)
            else if NamesValue(txn, a, v) then None
            else Entid(c, a, v)
  {
    UniqueFold(c, sc, rs, false, a, v);
    FoldKeepsFlags(c, None, sc, rs, false);
    UniqueFold(Fold(c, None, sc, rs, false), sc, ts, true, a, v);
    NamedValueReported(txn, c.forward + c.reverse, rs, ts, a, v);
  }

  /** The fact that the last assertion of the value is about. */
  lemma {:induction false} AssertedUnique(st: T.Schema, sc: Schema, d: T.Causets, txn: T.Txn, d': T.Causets, c: Caches,
      rs: seq<Aev>, ts: seq<Aev>, f: T.Fact)
    requires Watched(st, sc, d, txn, d', c, rs, ts) && OfSchema(st, sc, f) && Lawful(sc, RowsOf(T.View(d')))
    requires f.a in c.reverse && sc[f.a].unique && LatestFor(ts, f.a, f.v) == Some(f.e)
    ensures (forall e :: ReverseAgrees(Update(c, None, sc, rs, ts), sc, RowsOf(T.View(d')), f.a, e, f.v)) <==>
            !(f in T.View(d) && SlotRetracted(txn, f))
  {
    var c', after := Update(c, None, sc, rs, ts), RowsOf(T.View(d'));
    UniqueAfter(st, sc, d, txn, d', c, rs, ts, f.a, f.v);
    UpdateKeepsFlags(c, sc, rs, ts);
    FactWatched(st, sc, d, txn, d', c, rs, ts, f);
    assert ReverseAgrees(c', sc, after, f.a, f.e, f.v) <==> RowOf(f) in after;
    if RowOf(f) in after {
      forall e ensures ReverseAgrees(c', sc, after, f.a, e, f.v) {
      }
    }
  }

  lemma {:induction false} UpdateKeepsFlags(c: Caches, schema: Schema, rs: seq<Aev>, ts: seq<Aev>)
    requires Ready(c, schema, rs) && Ready(c, schema, ts)
    ensures Update(c, None, schema, rs, ts).forward == c.forward
    ensures Update(c, None, schema, rs, ts).reverse == c.reverse
  {
    FoldKeepsFlags(c, None, schema, rs, false);
    FoldKeepsFlags(Fold(c, None, schema, rs, false), None, schema, ts, true);
  }

  /** A value that is not asserted, seen from one fact. */
  lemma {:induction false} UnassertedUnique(st: T.Schema, sc: Schema, d: T.Causets, txn: T.Txn, d': T.Causets,
      c: Caches, rs: seq<Aev>, ts: seq<Aev>, f: T.Fact)
    requires Watched(st, sc, d, txn, d', c, rs, ts) && OfSchema(st, sc, f)
    requires f.a in c.reverse && sc[f.a].unique && LatestFor(ts, f.a, f.v).None?
    ensures ReverseAgrees(Update(c, None, sc, rs, ts), sc, RowsOf(T.View(d')), f.a, f.e, f.v) <==>
            (f in T.View(d) ==> KeepsUnique(txn, ts, f))
  {
    UniqueAfter(st, sc, d, txn, d', c, rs, ts, f.a, f.v);
    UpdateKeepsFlags(c, sc, rs, ts);
    FactWatched(st, sc, d, txn, d', c, rs, ts, f);
    assert ReverseAgrees(c, sc, RowsOf(T.View(d)), f.a, f.e, f.v);
  }

  ghost predicate KeepsValue(view: set<T.Fact>, txn: T.Txn, ts: seq<Aev>, a: int, v: Value) {
    forall f | f in view && f.a == a && f.v == v :: KeepsUnique(txn, ts, f)
  }

  /** A unique reverse lookup of a value follows the store if and only if its stored fact is kept. */
  lemma {:induction false} UniqueFollowsIff(st: T.Schema, sc: Schema, d: T.Causets, txn: T.Txn, d': T.Causets,
      c: Caches, rs: seq<Aev>, ts: seq<Aev>, a: int, v: Value)
    requires Watched(st, sc, d, txn, d', c, rs, ts) && Lawful(sc, RowsOf(T.View(d')))
    requires a in sc && a in c.reverse && sc[a].unique
    ensures (forall e :: ReverseAgrees(Update(c, None, sc, rs, ts), sc, RowsOf(T.View(d')), a, e, v)) <==>
            KeepsValue(T.View(d), txn, ts, a, v)
  {
    var latest, tag := LatestFor(ts, a, v), st[a].tag;
    forall f | f in T.View(d) && f.a == a && f.v == v ensures f == T.Fact(f.e, a, v, tag) {
    }
    if latest.Some? {
      AssertedUnique(st, sc, d, txn, d', c, rs, ts, T.Fact(latest.value, a, v, tag));
    } else {
      forall e
        ensures ReverseAgrees(Update(c, None, sc, rs, ts), sc, RowsOf(T.View(d')), a, e, v) <==>
                (T.Fact(e, a, v, tag) in T.View(d) ==> KeepsUnique(txn, ts, T.Fact(e, a, v, tag)))
      {
        UnassertedUnique(st, sc, d, txn, d', c, rs, ts, T.Fact(e, a, v, tag));
      }
    }
  }

  // ---------- the whole cache ----------

  ghost predicate KeepsForward(sc: Schema, txn: T.Txn, f: T.Fact)
    requires f.a in sc
  {
    Asserted(txn, f) ==> !sc[f.a].multival && !SlotRetracted(txn, f)
  }

  ghost predicate KeepsReverse(sc: Schema, txn: T.Txn, ts: seq<Aev>, f: T.Fact)
    requires f.a in sc
  {
    if sc[f.a].unique then KeepsUnique(txn, ts, f)
    else Replaced(txn, f) || SlotRetracted(txn, f) ==> Named(txn, f)
  }

  /** What the transaction does to each stored fact of a cached attribute reaches the cache. */
  ghost predicate Followed(c: Caches, sc: Schema, view: set<T.Fact>, txn: T.Txn, ts: seq<Aev>) {
    forall f | f in view && f.a in sc ::
      (f.a in c.forward ==> KeepsForward(sc, txn, f)) && (f.a in c.reverse ==> KeepsReverse(sc, txn, ts, f))
  }

  lemma {:induction false} ForwardFollowsIff(st: T.Schema, sc: Schema, d: T.Causets, txn: T.Txn, d': T.Causets,
      c: Caches, rs: seq<Aev>, ts: seq<Aev>, f: T.Fact)
    requires Watched(st, sc, d, txn, d', c, rs, ts) && OfSchema(st, sc, f) && f.a in c.forward
    ensures ForwardAgrees(Update(c, None, sc, rs, ts), sc, RowsOf(T.View(d')), f.a, f.e, f.v) <==>
            (f in T.View(d) ==> KeepsForward(sc, txn, f))
  {
    if sc[f.a].multival {
      VectorFollowsIff(st, sc, d, txn, d', c, rs, ts, f);
    } else {
      SingleFollowsIff(st, sc, d, txn, d', c, rs, ts, f);
    }
  }

  lemma {:induction false} FollowedAgrees(st: T.Schema, sc: Schema, d: T.Causets, txn: T.Txn, d': T.Causets, c: Caches,
      rs: seq<Aev>, ts: seq<Aev>)
    requires Watched(st, sc, d, txn, d', c, rs, ts) && Lawful(sc, RowsOf(T.View(d')))
    requires Followed(c, sc, T.View(d), txn, ts)
    ensures Agrees(Update(c, None, sc, rs, ts), sc, RowsOf(T.View(d')))
  {
    var c', after := Update(c, None, sc, rs, ts), RowsOf(T.View(d'));
    UpdateKeepsFlags(c, sc, rs, ts);
    forall a, e, v ensures ForwardAgrees(c', sc, after, a, e, v) && ReverseAgrees(c', sc, after, a, e, v) {
      if a in sc {
        var f := T.Fact(e, a, v, st[a].tag);
        if a in c.forward {
          ForwardFollowsIff(st, sc, d, txn, d', c, rs, ts, f);
        }
        if a in c.reverse {
          if sc[a].unique {
            UniqueFollowsIff(st, sc, d, txn, d', c, rs, ts, a, v);
            assert KeepsValue(T.View(d), txn, ts, a, v);
          } else {
            ReverseFollowsIffNamed(st, sc, d, txn, d', c, rs, ts, f);
          }
        }
      }
    }
  }

  lemma {:induction false} AgreementIsFollowed(st: T.Schema, sc: Schema, d: T.Causets, txn: T.Txn, d': T.Causets,
      c: Caches, rs: seq<Aev>, ts: seq<Aev>)
    requires Watched(st, sc, d, txn, d', c, rs, ts) && Lawful(sc, RowsOf(T.View(d')))
    requires Agrees(Update(c, None, sc, rs, ts), sc, RowsOf(T.View(d')))
    ensures Followed(c, sc, T.View(d), txn, ts)
  {
    var c', after := Update(c, None, sc, rs, ts), RowsOf(T.View(d'));
    forall f | f in T.View(d) && f.a in sc
      ensures f.a in c.forward ==> KeepsForward(sc, txn, f)
      ensures f.a in c.reverse ==> KeepsReverse(sc, txn, ts, f)
    {
      assert ForwardAgrees(c', sc, after, f.a, f.e, f.v) && ReverseAgrees(c', sc, after, f.a, f.e, f.v);
      if f.a in c.forward {
        ForwardFollowsIff(st, sc, d, txn, d', c, rs, ts, f);
      }
      if f.a in c.reverse {
        if sc[f.a].unique {
          UniqueFollowsIff(st, sc, d, txn, d', c, rs, ts, f.a, f.v);
        } else {
          ReverseFollowsIffNamed(st, sc, d, txn, d', c, rs, ts, f);
        }
      }
    }
  }

  /** The rows the watcher reports keep every lookup equal to a scan of the fact table if and only
      if each stored fact of a cached attribute is followed. */
  lemma {:induction false} WatchedUpdateAgreesIff(st: T.Schema, sc: Schema, d: T.Causets, txn: T.Txn, d': T.Causets,
      c: Caches, rs: seq<Aev>, ts: seq<Aev>)
    requires Watched(st, sc, d, txn, d', c, rs, ts) && Lawful(sc, RowsOf(T.View(d')))
    ensures Agrees(Update(c, None, sc, rs, ts), sc, RowsOf(T.View(d'))) <==> Followed(c, sc, T.View(d), txn, ts)
  {
    if Followed(c, sc, T.View(d), txn, ts) {
      FollowedAgrees(st, sc, d, txn, d', c, rs, ts);
    } else if Agrees(Update(c, None, sc, rs, ts), sc, RowsOf(T.View(d'))) {
      AgreementIsFollowed(st, sc, d, txn, d', c, rs, ts);
      assert false;
    }
  }
}
