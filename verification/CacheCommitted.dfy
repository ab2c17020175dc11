/** Exactly when the cache that a transaction commits agrees with the store that it leaves. */
module CacheCommitted {
  import opened Options
  import opened AttributeCache
  import opened CacheLayering
  import opened CacheOperations
  import opened CacheTransactions
  import opened CacheLeaks
  import opened CacheCommit
  import opened CacheStore
  import opened CacheAgreement

  // ---------- commit ----------

  lemma {:induction false} StrayIsCached<K, V>(over: Kind<K, V>, inner: Kind<K, V>, gone: set<int>, other: set<int>,
      flags: set<int>, innerFlags: set<int>, a: int, k: K)
    requires over.Keys <= flags && inner.Keys <= innerFlags && innerFlags - gone <= flags
    requires Strays(over, inner, gone, other, a, k) && LookupKind(inner, a, k).Some?
    ensures a in flags
  {
  }

  /** Forward lookups of an entity: where the flat cache agrees with the store, the committed cache does
      if and only if they do not stray. */
  lemma {:induction false} ForwardCommittedIff(ip: InProgress, schema: Schema, store: set<Aev>, a: int, e: int)
    requires Sound(ip) && forall v :: ForwardAgrees(Flat(ip), schema, store, a, e, v)
    ensures (forall v :: ForwardAgrees(Commit(ip), schema, store, a, e, v)) <==>
            !ValuesStray(ip, schema, a, e) && !ValueStrays(ip, schema, a, e)
  {
    CommitFlags(ip, a);
    CommittedValuesIff(ip, schema, a, e);
    CommittedValueIff(ip, schema, a, e);
    if ValuesStray(ip, schema, a, e) {
      VectorStrays(ip, schema, store, a, e);
    } else if ValueStrays(ip, schema, a, e) {
      SingleStrays(ip, schema, store, a, e);
    } else {
      forall v ensures ForwardAgrees(Commit(ip), schema, store, a, e, v) {
        assert ForwardAgrees(Flat(ip), schema, store, a, e, v);
      }
    }
  }

  lemma {:induction false} VectorStrays(ip: InProgress, schema: Schema, store: set<Aev>, a: int, e: int)
    requires Sound(ip) && ValuesStray(ip, schema, a, e)
    requires forall v :: ForwardAgrees(Flat(ip), schema, store, a, e, v)
    ensures !forall v :: ForwardAgrees(Commit(ip), schema, store, a, e, v)
  {
    var v := Vec(Values(ip.inner, schema, a, e))[0];
    CommitFlags(ip, a);
    CommittedValuesIff(ip, schema, a, e);
    StrayIsCached(ip.overlay.multi, ip.inner.multi, ip.unregF, ip.unregR, ip.overlay.forward, ip.inner.forward, a, e);
    assert Listed(Commit(ip), schema, Aev(a, e, v)) != Listed(Flat(ip), schema, Aev(a, e, v));
    assert ForwardAgrees(Flat(ip), schema, store, a, e, v);
    assert !ForwardAgrees(Commit(ip), schema, store, a, e, v);
  }

  lemma {:induction false} SingleStrays(ip: InProgress, schema: Schema, store: set<Aev>, a: int, e: int)
    requires Sound(ip) && ValueStrays(ip, schema, a, e)
    requires forall v :: ForwardAgrees(Flat(ip), schema, store, a, e, v)
    ensures !forall v :: ForwardAgrees(Commit(ip), schema, store, a, e, v)
  {
    var committed, flat := ValueOf(Commit(ip), schema, a, e), ValueOf(Flat(ip), schema, a, e);
    CommitFlags(ip, a);
    CommittedValueIff(ip, schema, a, e);
    StrayIsCached(ip.overlay.single, ip.inner.single, ip.unregF, ip.unregR, ip.overlay.forward, ip.inner.forward, a, e);
    var v := if committed.Some? then committed.value else flat.value;
    assert ForwardAgrees(Flat(ip), schema, store, a, e, v);
    assert !ForwardAgrees(Commit(ip), schema, store, a, e, v);
  }

  /** Reverse lookups of a value. */
  lemma {:induction false} ReverseCommittedIff(ip: InProgress, schema: Schema, store: set<Aev>, a: int, v: Value)
    requires Sound(ip) && a in schema && forall e :: ReverseAgrees(Flat(ip), schema, store, a, e, v)
    ensures (forall e :: ReverseAgrees(Commit(ip), schema, store, a, e, v)) <==>
            if schema[a].unique then !EntidStrays(ip, a, v) else !EntidsStray(ip, a, v)
  {
    CommitFlags(ip, a);
    CommittedEntidIff(ip, a, v);
    CommittedEntidsIff(ip, a, v);
    if schema[a].unique && EntidStrays(ip, a, v) {
      UniqueStrays(ip, schema, store, a, v);
    } else if !schema[a].unique && EntidsStray(ip, a, v) {
      NonUniqueStrays(ip, schema, store, a, v);
    } else {
      forall e ensures ReverseAgrees(Commit(ip), schema, store, a, e, v) {
        assert ReverseAgrees(Flat(ip), schema, store, a, e, v);
      }
    }
  }

  lemma {:induction false} UniqueStrays(ip: InProgress, schema: Schema, store: set<Aev>, a: int, v: Value)
    requires Sound(ip) && a in schema && schema[a].unique && EntidStrays(ip, a, v)
    requires forall e :: ReverseAgrees(Flat(ip), schema, store, a, e, v)
    ensures !forall e :: ReverseAgrees(Commit(ip), schema, store, a, e, v)
  {
    var committed, flat := Entid(Commit(ip), a, v), Entid(Flat(ip), a, v);
    CommitFlags(ip, a);
    CommittedEntidIff(ip, a, v);
    StrayIsCached(ip.overlay.uniq, ip.inner.uniq, ip.unregR, ip.unregF, ip.overlay.reverse, ip.inner.reverse, a, v);
    var e := if committed.Some? then committed.value else flat.value;
    assert ReverseAgrees(Flat(ip), schema, store, a, e, v);
    assert !ReverseAgrees(Commit(ip), schema, store, a, e, v);
  }

  lemma {:induction false} NonUniqueStrays(ip: InProgress, schema: Schema, store: set<Aev>, a: int, v: Value)
    requires Sound(ip) && a in schema && !schema[a].unique && EntidsStray(ip, a, v)
    requires forall e :: ReverseAgrees(Flat(ip), schema, store, a, e, v)
    ensures !forall e :: ReverseAgrees(Commit(ip), schema, store, a, e, v)
  {
    var committed, flat := Members(Entids(Commit(ip), a, v)), Members(Entids(Flat(ip), a, v));
    CommitFlags(ip, a);
    CommittedEntidsIff(ip, a, v);
    StrayIsCached(ip.overlay.nonUniq, ip.inner.nonUniq, ip.unregR, ip.unregF, ip.overlay.reverse, ip.inner.reverse, a,
        v);
    var e := Member(Members(Entids(ip.inner, a, v)));
    assert committed in {{}, Members(Entids(ip.inner, a, v))} && flat in {{}, Members(Entids(ip.inner, a, v))};
    assert ReverseAgrees(Flat(ip), schema, store, a, e, v);
    assert !ReverseAgrees(Commit(ip), schema, store, a, e, v);
  }

  /** In every sound state whose flat cache agrees with the store, the committed cache does if and only
      if no lookup strays. */
  lemma {:induction false} CommitAgreesIffNoStrays(ip: InProgress, schema: Schema, store: set<Aev>)
    requires Sound(ip) && Agrees(Flat(ip), schema, store)
    ensures Agrees(Commit(ip), schema, store) <==> NoStrays(ip, schema)
  {
    if Agrees(Commit(ip), schema, store) {
      AgreementHasNoStrays(ip, schema, store);
    } else if NoStrays(ip, schema) {
      NoStraysAgrees(ip, schema, store);
    }
  }

  lemma {:induction false} AgreementHasNoStrays(ip: InProgress, schema: Schema, store: set<Aev>)
    requires Sound(ip) && Agrees(Flat(ip), schema, store) && Agrees(Commit(ip), schema, store)
    ensures NoStrays(ip, schema)
  {
    forall a, e ensures !ValuesStray(ip, schema, a, e) && !ValueStrays(ip, schema, a, e) {
      ForwardCommittedIff(ip, schema, store, a, e);
    }
    forall a, v | a in schema
      ensures !(schema[a].unique && EntidStrays(ip, a, v)) && !(!schema[a].unique && EntidsStray(ip, a, v))
    {
      ReverseCommittedIff(ip, schema, store, a, v);
    }
  }

  lemma {:induction false} NoStraysAgrees(ip: InProgress, schema: Schema, store: set<Aev>)
    requires Sound(ip) && Agrees(Flat(ip), schema, store) && NoStrays(ip, schema)
    ensures Agrees(Commit(ip), schema, store)
  {
    forall a, e, v
      ensures ForwardAgrees(Commit(ip), schema, store, a, e, v) && ReverseAgrees(Commit(ip), schema, store, a, e, v)
    {
      ForwardCommittedIff(ip, schema, store, a, e);
      if a in schema {
        ReverseCommittedIff(ip, schema, store, a, v);
      }
    }
  }

  /** Where the overlay refines a flat cache, the committed cache agrees with exactly the stores that the
      flat one agrees with. */
  lemma {:induction false} CommittedAgreesIff(ip: InProgress, flat: Caches, schema: Schema, store: set<Aev>)
    requires Refines(ip, flat)
    ensures Agrees(Commit(ip), schema, store) <==> Agrees(flat, schema, store)
  {
    forall a, e, v
      ensures ForwardAgrees(Commit(ip), schema, store, a, e, v) <==> ForwardAgrees(flat, schema, store, a, e, v)
      ensures ReverseAgrees(Commit(ip), schema, store, a, e, v) <==> ReverseAgrees(flat, schema, store, a, e, v)
    {
      CommittedIsFlat(ip, flat, schema, a, e, v);
    }
  }

  // ---------- whole transactions ----------

  ghost predicate AllApt(ip: InProgress, schema: Schema, store: set<Aev>, ops: seq<Op>)
    requires Legal(ip, schema, ops)
    decreases |ops|
  {
    ops == [] ||
    (Apt(Flat(ip), schema, store, ops[0]) &&
     AllApt(Perform(ip, schema, ops[0]), schema, StoreAfter(store, ops[0]), ops[1..]))
  }

  ghost predicate AllQuiet(ip: InProgress, schema: Schema, ops: seq<Op>)
    requires Legal(ip, schema, ops)
    decreases |ops|
  {
    ops == [] || (Quiet(ip, schema, ops[0]) && AllQuiet(Perform(ip, schema, ops[0]), schema, ops[1..]))
  }

  ghost function FinalStore(store: set<Aev>, ops: seq<Op>): set<Aev>
    decreases |ops|
  {
    if ops == [] then store else FinalStore(StoreAfter(store, ops[0]), ops[1..])
  }

  lemma {:induction false} ExecuteAgrees(ip: InProgress, schema: Schema, store: set<Aev>, ops: seq<Op>)
    requires Sound(ip) && Legal(ip, schema, ops) && Agrees(Flat(ip), schema, store)
    requires AllApt(ip, schema, store, ops) && AllQuiet(ip, schema, ops)
    ensures Agrees(Flat(Execute(ip, schema, ops)), schema, FinalStore(store, ops))
    decreases |ops|
  {
    if ops != [] {
      PerformAgreesIff(ip, schema, store, ops[0]);
      PerformSound(ip, schema, ops[0]);
      ExecuteAgrees(Perform(ip, schema, ops[0]), schema, StoreAfter(store, ops[0]), ops[1..]);
    }
  }

  /** If the cache agrees with the store when a transaction begins, then after any apt updates,
      unregistrations and registrations that bring no value back, the committed cache agrees with the
      store the transaction leaves if and only if no lookup strays. */
  lemma {:induction false} CommittedCacheAgreesIff(inner: Caches, schema: Schema, store: set<Aev>, ops: seq<Op>)
    requires WellFormed(inner) && Agrees(inner, schema, store) && Legal(FromCache(inner), schema, ops)
    requires AllApt(FromCache(inner), schema, store, ops) && AllQuiet(FromCache(inner), schema, ops)
    ensures var ip := Execute(FromCache(inner), schema, ops);
            Agrees(Commit(ip), schema, FinalStore(store, ops)) <==> NoStrays(ip, schema)
  {
    FreshFlat(inner);
    ExecuteAgrees(FromCache(inner), schema, store, ops);
    ExecuteSound(FromCache(inner), schema, ops);
    CommitAgreesIffNoStrays(Execute(FromCache(inner), schema, ops), schema, FinalStore(store, ops));
  }

  // ---------- example ----------

  lemma {:induction false} OneOp(ip: InProgress, schema: Schema, store: set<Aev>, x: Op)
    requires Enabled(ip, schema, x) && Apt(Flat(ip), schema, store, x) && Quiet(ip, schema, x)
    ensures Legal(ip, schema, [x]) && AllApt(ip, schema, store, [x]) && AllQuiet(ip, schema, [x])
    ensures Execute(ip, schema, [x]) == Perform(ip, schema, x) && FinalStore(store, [x]) == StoreAfter(store, x)
  {
    assert [x][1..] == [];
  }

  lemma {:induction false} TwoOps(ip: InProgress, schema: Schema, store: set<Aev>, x: Op, y: Op)
    requires Enabled(ip, schema, x) && Enabled(Perform(ip, schema, x), schema, y)
    requires Apt(Flat(ip), schema, store, x) && Apt(Flat(Perform(ip, schema, x)), schema, StoreAfter(store, x), y)
    requires Quiet(ip, schema, x) && Quiet(Perform(ip, schema, x), schema, y)
    ensures Legal(ip, schema, [x, y]) && AllApt(ip, schema, store, [x, y]) && AllQuiet(ip, schema, [x, y])
    ensures Execute(ip, schema, [x, y]) == Perform(Perform(ip, schema, x), schema, y)
    ensures FinalStore(store, [x, y]) == StoreAfter(StoreAfter(store, x), y)
  {
    assert [x, y][1..] == [y];
    OneOp(Perform(ip, schema, x), schema, StoreAfter(store, x), y);
  }

  lemma {:induction false} RetractedStore(x: Aev, y: Aev, schema: Schema)
    requires x != y && schema == map[10 := Attribute(true, false)] && x.a == 10 && y.a == 10
    ensures Orderly(schema, {x, y}, [x], []) && NewStore({x, y}, [x], []) == {y}
    ensures Lawful(schema, {y}) && Lists([y], {y}, 10)
  {
    assert RowSet([x]) == {x} by {
      assert [x][0] in RowSet([x]);
    }
    assert {x, y} - {x} == {y};
  }

  /** An entity's values are retracted and a further direction of the attribute is registered from what
      is left: the committed cache goes on listing the retracted value. */
  lemma {:induction false} StaysStaleExample(v: Value, w: Value)
      returns (inner: Caches, schema: Schema, store: set<Aev>, ops: seq<Op>)
    requires v != w
    ensures WellFormed(inner) && Agrees(inner, schema, store) && Legal(FromCache(inner), schema, ops)
    ensures AllApt(FromCache(inner), schema, store, ops) && AllQuiet(FromCache(inner), schema, ops)
    ensures ops == [Change([Aev(10, 1, v)], []), Enrol(10, false, true, [Aev(10, 2, w)])]
    ensures FinalStore(store, ops) == {Aev(10, 2, w)}
    ensures var committed := Commit(Execute(FromCache(inner), schema, ops));
            Values(committed, schema, 10, 1) == Some([v]) && !Agrees(committed, schema, FinalStore(store, ops))
  {
    var ip, flat;
    inner, schema, ip, flat := LeakExample(v, w);
    var x, y := Aev(10, 1, v), Aev(10, 2, w);
    var change, enrol := Change([x], []), Enrol(10, false, true, [y]);
    store, ops := {x, y}, [change, enrol];
    ExampleAgrees(inner, schema, v, w);
    RetractedStore(x, y, schema);
    TwoOps(FromCache(inner), schema, store, change, enrol);
    ExampleSound(inner, schema, change, enrol);
    StaleCommit(inner, schema, ip, v, w);
  }

  lemma {:induction false} ExampleAgrees(inner: Caches, schema: Schema, v: Value, w: Value)
    requires inner == Caches({10}, {}, map[], map[10 := map[1 := [v], 2 := [w]]], map[], map[])
    requires schema == map[10 := Attribute(true, false)]
    ensures Agrees(inner, schema, {Aev(10, 1, v), Aev(10, 2, w)})
  {
    var store := {Aev(10, 1, v), Aev(10, 2, w)};
    forall a, e, u ensures ForwardAgrees(inner, schema, store, a, e, u) &&
        ReverseAgrees(inner, schema, store, a, e, u) {
    }
  }

  lemma {:induction false} ExampleSound(inner: Caches, schema: Schema, change: Op, enrol: Op)
    requires WellFormed(inner) && change.Change? && enrol.Enrol? && Enabled(FromCache(inner), schema, change)
    requires Enabled(Perform(FromCache(inner), schema, change), schema, enrol)
    ensures var ip := Perform(Perform(FromCache(inner), schema, change), schema, enrol);
            Sound(ip) && ip.inner == inner && ip.unregF == {} && ip.unregR == {}
  {
    FreshFlat(inner);
    PerformSound(FromCache(inner), schema, change);
    PerformSound(Perform(FromCache(inner), schema, change), schema, enrol);
  }

  lemma {:induction false} StaleCommit(inner: Caches, schema: Schema, ip: InProgress, v: Value, w: Value)
    requires Sound(ip) && ip.inner == inner && ip.unregF == {} && ip.unregR == {}
    requires inner.multi == map[10 := map[1 := [v], 2 := [w]]] && inner.forward == {10} &&
             schema == map[10 := Attribute(true, false)]
    requires OverlaidValues(ip, schema, 10, 1) == Some([v])
    ensures Values(Commit(ip), schema, 10, 1) == Some([v]) && !Agrees(Commit(ip), schema, {Aev(10, 2, w)})
  {
    CommitValues(ip, schema, 10, 1);
    CommitFlags(ip, 10);
    assert Listed(Commit(ip), schema, Aev(10, 1, v)) > 0;
    assert !ForwardAgrees(Commit(ip), schema, {Aev(10, 2, w)}, 10, 1, v);
  }
}
