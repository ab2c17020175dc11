/** Operations after which nothing of the inner cache shows through the overlay, where leaks come from,
    and examples of each departure from the flat cache. */
module CacheLeaks {
  import opened Options
  import opened AttributeCache
  import opened CacheLayering
  import opened CacheOperations
  import opened CacheTransactions

  // ---------- operations that leak nothing ----------

  /** A copied entry keeps every key it was copied with. */
  ghost predicate KeysKept<K, V>(over: Kind<K, V>, inner: Kind<K, V>, gone: set<int>) {
    forall a | a in over && a in inner && a !in gone :: inner[a].Keys <= over[a].Keys
  }

  ghost predicate LeakFree(ip: InProgress) {
    && KeysKept(ip.overlay.single, ip.inner.single, ip.unregF)
    && KeysKept(ip.overlay.multi, ip.inner.multi, ip.unregF)
    && KeysKept(ip.overlay.uniq, ip.inner.uniq, ip.unregR)
    && KeysKept(ip.overlay.nonUniq, ip.inner.nonUniq, ip.unregR)
  }

  /** Unregistered both ways wherever the inner cache had both: nothing was registered back. */
  ghost predicate Settled(ip: InProgress) {
    ip.inner.forward * ip.unregR <= ip.unregF && ip.inner.reverse * ip.unregF <= ip.unregR
  }

  ghost predicate Refines(ip: InProgress, flat: Caches) {
    Sound(ip) && Settled(ip) && LeakFree(ip) && flat == Flat(ip)
  }

  /** A registration that takes effect is of an attribute the inner cache does not know. */
  predicate Plain(ip: InProgress, schema: Schema, op: Op) {
    op.Enrol? ==>
      || Skips(schema, op, CachedForward(ip, op.attr), CachedReverse(ip, op.attr))
      || op.attr !in ip.inner.forward + ip.inner.reverse
  }

  lemma {:induction false} StepKeysKept<K, V>(over: Kind<K, V>, inner: Kind<K, V>, gone: set<int>, fallback: Kind<K, V>,
      op: RowOp<K, V>, row: Aev, add: bool)
    requires KeysKept(over, inner, gone) && (fallback == inner || row.a !in inner)
    requires forall m: map<K, V> :: m.Keys <= op(m, row, add).Keys
    ensures KeysKept(StepKind(over, fallback, op, row, add), inner, gone)
  {
    assert forall m: map<K, V>, k | k in m :: k in op(m, row, add);
  }

  lemma {:induction false} StepForwardKept(ip: InProgress, schema: Schema, row: Aev, add: bool)
    requires Sound(ip) && LeakFree(ip) && row.a in schema
    ensures var over := Step(ip.overlay, Some(ip.inner), schema, row, add);
            KeysKept(over.single, ip.inner.single, ip.unregF) && KeysKept(over.multi, ip.inner.multi, ip.unregF)
  {
    var ff := ForwardFallback(Some(ip.inner), row.a);
    StepKeysKept(ip.overlay.single, ip.inner.single, ip.unregF, ff.single, SingleOp, row, add);
    StepKeysKept(ip.overlay.multi, ip.inner.multi, ip.unregF, ff.multi, MultiOp, row, add);
  }

  lemma {:induction false} StepReverseKept(ip: InProgress, schema: Schema, row: Aev, add: bool)
    requires Sound(ip) && LeakFree(ip) && row.a in schema
    ensures var over := Step(ip.overlay, Some(ip.inner), schema, row, add);
            KeysKept(over.uniq, ip.inner.uniq, ip.unregR) && KeysKept(over.nonUniq, ip.inner.nonUniq, ip.unregR)
  {
    var rf := ReverseFallback(Some(ip.inner), row.a);
    StepKeysKept(ip.overlay.uniq, ip.inner.uniq, ip.unregR, rf.uniq, UniqOp, row, add);
    StepKeysKept(ip.overlay.nonUniq, ip.inner.nonUniq, ip.unregR, rf.nonUniq, NonUniqOp, row, add);
  }

  lemma {:induction false} StepLeakFree(ip: InProgress, schema: Schema, row: Aev, add: bool)
    requires Sound(ip) && LeakFree(ip) && row.a in schema
    ensures LeakFree(ip.(overlay := Step(ip.overlay, Some(ip.inner), schema, row, add)))
  {
    StepForwardKept(ip, schema, row, add);
    StepReverseKept(ip, schema, row, add);
  }

  lemma {:induction false} FoldLeakFree(ip: InProgress, schema: Schema, rows: seq<Aev>, add: bool)
    requires Sound(ip) && LeakFree(ip) && Ready(ip.overlay, schema, rows)
    ensures LeakFree(ip.(overlay := Fold(ip.overlay, Some(ip.inner), schema, rows, add)))
    decreases |rows|
  {
    if rows != [] {
      StepLeakFree(ip, schema, rows[0], add);
      StepSound(ip, schema, rows[0], add);
      FoldLeakFree(ip.(overlay := Step(ip.overlay, Some(ip.inner), schema, rows[0], add)), schema, rows[1..], add);
    }
  }

  lemma {:induction false} ChangeLeakFree(ip: InProgress, schema: Schema, rs: seq<Aev>, ts: seq<Aev>)
    requires Sound(ip) && LeakFree(ip) && Ready(ip.overlay, schema, rs) && Ready(ip.overlay, schema, ts)
    ensures LeakFree(Perform(ip, schema, Change(rs, ts)))
  {
    FoldLeakFree(ip, schema, rs, false);
    FoldFlat(ip, schema, rs, false);
    FoldKeepsFlags(ip.overlay, Some(ip.inner), schema, rs, false);
    FoldLeakFree(ip.(overlay := Fold(ip.overlay, Some(ip.inner), schema, rs, false)), schema, ts, true);
  }

  lemma {:induction false} EnrolLeakFree(ip: InProgress, schema: Schema, op: Op)
    requires Sound(ip) && LeakFree(ip) && op.Enrol? && Enabled(ip, schema, op) && Plain(ip, schema, op)
    ensures LeakFree(Perform(ip, schema, op)) && !Resurrects(ip, schema, op)
  {
    var a := op.attr;
    var forward, reverse := CachedForward(ip, a), CachedReverse(ip, a);
    if !Skips(schema, op, forward, reverse) {
      RegisterShape(ip.overlay, schema, a, op.fwd && !forward, op.rev && !reverse, op.rows);
    }
  }

  /** Plain operations keep the refinement. */
  lemma {:induction false} PerformRefines(ip: InProgress, flat: Caches, schema: Schema, op: Op)
    requires Refines(ip, flat) && Enabled(ip, schema, op) && Plain(ip, schema, op)
    ensures EnabledFlat(flat, schema, op)
    ensures Refines(Perform(ip, schema, op), PerformFlat(flat, schema, op))
  {
    PerformSound(ip, schema, op);
    PerformFlatIff(ip, schema, op);
    match op
    case Change(rs, ts) => ChangeLeakFree(ip, schema, rs, ts);
    case Forget(_) =>
    case ForgetAll =>
    case Enrol(_, _, _, _) => EnrolLeakFree(ip, schema, op);
  }

  predicate AllPlain(ip: InProgress, schema: Schema, ops: seq<Op>)
    requires Legal(ip, schema, ops)
    decreases |ops|
  {
    ops == [] || (Plain(ip, schema, ops[0]) && AllPlain(Perform(ip, schema, ops[0]), schema, ops[1..]))
  }

  lemma {:induction false} ExecuteRefines(ip: InProgress, flat: Caches, schema: Schema, ops: seq<Op>)
    requires Refines(ip, flat) && Legal(ip, schema, ops) && AllPlain(ip, schema, ops)
    ensures LegalFlat(flat, schema, ops)
    ensures Refines(Execute(ip, schema, ops), ExecuteFlat(flat, schema, ops))
    decreases |ops|
  {
    if ops != [] {
      PerformRefines(ip, flat, schema, ops[0]);
      ExecuteRefines(Perform(ip, schema, ops[0]), PerformFlat(flat, schema, ops[0]), schema, ops[1..]);
    }
  }

  lemma {:induction false} FreshRefines(inner: Caches)
    requires WellFormed(inner)
    ensures Refines(FromCache(inner), inner)
  {
  }

  /** Where nothing leaks, three kinds of lookup answer as the flat cache outright, and the fourth
      but for stale tombstones. */
  lemma {:induction false} AnswersRefine(ip: InProgress, flat: Caches, schema: Schema, a: int, e: int, v: Value)
    requires Refines(ip, flat)
    ensures OverlaidValues(ip, schema, a, e) == Values(flat, schema, a, e)
    ensures OverlaidValue(ip, schema, a, e) == ValueOf(flat, schema, a, e) <==> !Stale(ip, schema, a, e)
    ensures OverlaidEntid(ip, a, v) == Entid(flat, a, v)
    ensures OverlaidEntids(ip, a, v) == Entids(flat, a, v)
  {
    ValuesFlatIff(ip, schema, a, e);
    ValueFlatIff(ip, schema, a, e);
    EntidFlatIff(ip, a, v);
    EntidsFlatIff(ip, a, v);
  }

  /** Updates, unregistrations and registrations of attributes that the inner cache does not know, in
      any order, leave the layered cache answering as the flat one. */
  lemma {:induction false} PlainRefinesFlat(inner: Caches, schema: Schema, ops: seq<Op>, a: int, e: int, v: Value)
    requires WellFormed(inner) && Legal(FromCache(inner), schema, ops) && AllPlain(FromCache(inner), schema, ops)
    ensures LegalFlat(inner, schema, ops)
    ensures var ip, flat := Execute(FromCache(inner), schema, ops), ExecuteFlat(inner, schema, ops);
            && OverlaidValues(ip, schema, a, e) == Values(flat, schema, a, e)
            && OverlaidEntid(ip, a, v) == Entid(flat, a, v)
            && OverlaidEntids(ip, a, v) == Entids(flat, a, v)
            && (OverlaidValue(ip, schema, a, e) == ValueOf(flat, schema, a, e) <==> !Stale(ip, schema, a, e))
            && (CachedForward(ip, a) <==> a in flat.forward)
            && (CachedReverse(ip, a) <==> a in flat.reverse)
  {
    FreshRefines(inner);
    ExecuteRefines(FromCache(inner), inner, schema, ops);
    var ip, flat := Execute(FromCache(inner), schema, ops), ExecuteFlat(inner, schema, ops);
    AnswersRefine(ip, flat, schema, a, e, v);
    FlagsFlat(ip, a);
  }

  // ---------- where leaks come from ----------

  /** The rows of a refill name the key: an entity in the forward kinds, a value in the reverse ones. */
  ghost predicate Keyed<K(!new), V(!new)>(op: RowOp<K, V>, key: Aev -> K) {
    forall m: map<K, V>, row :: op(m, row, true).Keys == m.Keys + {key(row)}
  }

  lemma {:induction false} BuiltKeys<K(!new), V(!new)>(m: map<K, V>, op: RowOp<K, V>, key: Aev -> K, rows: seq<Aev>,
      k: K)
    requires Keyed(op, key)
    ensures k in Built(m, op, rows) <==> k in m || exists i :: 0 <= i < |rows| && key(rows[i]) == k
    decreases |rows|
  {
    if rows != [] {
      var m', rest := op(m, rows[0], true), rows[1..];
      assert m'.Keys == m.Keys + {key(rows[0])};
      BuiltKeys(m', op, key, rest, k);
      if i :| 0 <= i < |rest| && key(rest[i]) == k {
        assert key(rows[i + 1]) == k;
      }
      if i :| 0 <= i < |rows| && key(rows[i]) == k {
        assert i > 0 ==> key(rest[i - 1]) == k;
      }
    }
  }

  function EntityOf(row: Aev): int { row.e }
  function ValueIn(row: Aev): Value { row.v }

  lemma {:induction false} RowOpsKeyed()
    ensures Keyed(SingleOp, EntityOf) && Keyed(MultiOp, EntityOf) && Keyed(UniqOp, ValueIn) && Keyed(NonUniqOp, ValueIn)
  {
  }

  /** The inner cache has the key and no row of the refill names it. */
  ghost predicate Missed<K, V>(inner: Kind<K, V>, key: Aev -> K, a: int, rows: seq<Aev>, k: K) {
    LookupKind(inner, a, k).Some? && forall i | 0 <= i < |rows| :: key(rows[i]) != k
  }

  /** One kind: after a refill the missed keys leak, and no others. */
  lemma {:induction false} RefilledLeaksIff<K(!new), V(!new)>(over: Kind<K, V>, inner: Kind<K, V>, op: RowOp<K, V>,
      key: Aev -> K, a: int, rows: seq<Aev>, k: K)
    requires Keyed(op, key)
    ensures Leaks(Refilled(over, op, a, rows, true), inner, a, k) <==> Missed(inner, key, a, rows, k)
  {
    BuiltKeys(map[], op, key, rows, k);
  }

  /** Registering an attribute that the inner cache knows makes forward lookups leak at exactly the
      entities that the inner cache has and the rows do not. */
  lemma {:induction false} RefillLeaksForwardIff(ip: InProgress, schema: Schema, op: Op, e: int)
    requires Refills(ip, schema, op) && (op.fwd || CachedForward(ip, op.attr))
    ensures var a, over, inner := op.attr, Perform(ip, schema, op).overlay, ip.inner;
            if schema[a].multival
            then Leaks(over.multi, inner.multi, a, e) <==> Missed(inner.multi, EntityOf, a, op.rows, e)
            else Leaks(over.single, inner.single, a, e) <==> Missed(inner.single, EntityOf, a, op.rows, e)
  {
    OverlayRefilled(ip, schema, op);
    RowOpsKeyed();
    RefilledLeaksIff(ip.overlay.single, ip.inner.single, SingleOp, EntityOf, op.attr, op.rows, e);
    RefilledLeaksIff(ip.overlay.multi, ip.inner.multi, MultiOp, EntityOf, op.attr, op.rows, e);
  }

  /** Reverse lookups leak at exactly the values that the inner cache has and the rows do not. */
  lemma {:induction false} RefillLeaksReverseIff(ip: InProgress, schema: Schema, op: Op, v: Value)
    requires Refills(ip, schema, op) && (op.rev || CachedReverse(ip, op.attr))
    ensures var a, over, inner := op.attr, Perform(ip, schema, op).overlay, ip.inner;
            if schema[a].unique
            then Leaks(over.uniq, inner.uniq, a, v) <==> Missed(inner.uniq, ValueIn, a, op.rows, v)
            else Leaks(over.nonUniq, inner.nonUniq, a, v) <==> Missed(inner.nonUniq, ValueIn, a, op.rows, v)
  {
    OverlayRefilled(ip, schema, op);
    RowOpsKeyed();
    RefilledLeaksIff(ip.overlay.uniq, ip.inner.uniq, UniqOp, ValueIn, op.attr, op.rows, v);
    RefilledLeaksIff(ip.overlay.nonUniq, ip.inner.nonUniq, NonUniqOp, ValueIn, op.attr, op.rows, v);
  }

  // ---------- examples ----------

  /** Retracting a cached single value leaves the layered cache answering with it. */
  lemma {:induction false} StaleTombstoneExample(v: Value) returns (inner: Caches, schema: Schema, op: Op)
    ensures WellFormed(inner) && op == Change([Aev(10, 1, v)], []) && Enabled(FromCache(inner), schema, op)
    ensures EnabledFlat(inner, schema, op)
    ensures OverlaidValue(Perform(FromCache(inner), schema, op), schema, 10, 1) == Some(v)
    ensures ValueOf(PerformFlat(inner, schema, op), schema, 10, 1) == None
  {
    inner := Caches({10}, {}, map[10 := map[1 := Some(v)]], map[], map[], map[]);
    schema := map[10 := Attribute(false, false)];
    op := Change([Aev(10, 1, v)], []);
    OneRow(FromCache(inner).overlay, Some(inner), schema, Aev(10, 1, v), false);
    OneRow(inner, None, schema, Aev(10, 1, v), false);
  }

  /** Unregistering an attribute and registering it back when the store has no rows of it brings the
      old values back. */
  lemma {:induction false} ResurrectionExample(v: Value) returns (inner: Caches, schema: Schema, ip: InProgress,
      flat: Caches)
    ensures WellFormed(inner) && Sound(ip)
    ensures ip == Perform(Perform(FromCache(inner), schema, Forget(10)), schema, Enrol(10, true, false, []))
    ensures flat == PerformFlat(PerformFlat(inner, schema, Forget(10)), schema, Enrol(10, true, false, []))
    ensures OverlaidValues(ip, schema, 10, 1) == Some([v]) && Values(flat, schema, 10, 1) == None
  {
    inner := Caches({10}, {}, map[], map[10 := map[1 := [v]]], map[], map[]);
    schema := map[10 := Attribute(true, false)];
    var ip1 := Perform(FromCache(inner), schema, Forget(10));
    ip := Perform(ip1, schema, Enrol(10, true, false, []));
    flat := PerformFlat(PerformFlat(inner, schema, Forget(10)), schema, Enrol(10, true, false, []));
    PerformSound(FromCache(inner), schema, Forget(10));
    PerformSound(ip1, schema, Enrol(10, true, false, []));
  }

  /** Retracting an entity's values and then registering another direction lets the values through. */
  lemma {:induction false} LeakExample(v: Value, w: Value) returns (inner: Caches, schema: Schema, ip: InProgress,
      flat: Caches)
    requires v != w
    ensures inner == Caches({10}, {}, map[], map[10 := map[1 := [v], 2 := [w]]], map[], map[])
    ensures WellFormed(inner) && schema == map[10 := Attribute(true, false)]
    ensures var change := Change([Aev(10, 1, v)], []);
            && Enabled(FromCache(inner), schema, change) && EnabledFlat(inner, schema, change)
            && ip == Perform(Perform(FromCache(inner), schema, change), schema, Enrol(10, false, true, [Aev(10, 2, w)]))
            && flat == PerformFlat(PerformFlat(inner, schema, change), schema, Enrol(10, false, true, [Aev(10, 2, w)]))
    ensures OverlaidValues(ip, schema, 10, 1) == Some([v]) && Values(flat, schema, 10, 1) == None
  {
    inner := Caches({10}, {}, map[], map[10 := map[1 := [v], 2 := [w]]], map[], map[]);
    schema := map[10 := Attribute(true, false)];
    var change, enrol := Change([Aev(10, 1, v)], []), Enrol(10, false, true, [Aev(10, 2, w)]);
    OneRow(FromCache(inner).overlay, Some(inner), schema, Aev(10, 1, v), false);
    OneRow(inner, None, schema, Aev(10, 1, v), false);
    var ip1, flat1 := Perform(FromCache(inner), schema, change), PerformFlat(inner, schema, change);
    RegisterShape(ip1.overlay, schema, 10, false, true, enrol.rows);
    RegisterShape(flat1, schema, 10, false, true, enrol.rows);
    RowOpsKeyed();
    BuiltKeys(map[], MultiOp, EntityOf, enrol.rows, 1);
    ip, flat := Perform(ip1, schema, enrol), PerformFlat(flat1, schema, enrol);
  }
}
