/** What each operation of a transaction does to the agreement between the cache it stands for and the
    store. */
module CacheAgreement {
  import opened AttributeCache
  import opened CacheLayering
  import opened CacheOperations
  import opened CacheStore

  lemma {:induction false} Member<T>(es: set<T>) returns (e: T)
    requires es != {}
    ensures e in es
  {
    e :| e in es;
  }

  /** What an operation needs to keep a flat cache in agreement with the store. */
  ghost predicate Apt(c: Caches, schema: Schema, store: set<Aev>, op: Op) {
    match op
    case Change(rs, ts) => Orderly(schema, store, rs, ts) && Novel(c, schema, store - RowSet(rs), ts)
    case Forget(_) => true
    case ForgetAll => true
    case Enrol(a, _, _, rows) => Lawful(schema, store) && Lists(rows, store, a)
  }

  ghost function StoreAfter(store: set<Aev>, op: Op): set<Aev> {
    if op.Change? then NewStore(store, op.retractions, op.assertions) else store
  }

  lemma {:induction false} ForgetAgrees(c: Caches, schema: Schema, store: set<Aev>, a: int)
    requires Agrees(c, schema, store)
    ensures Agrees(Unregister(c, a), schema, store)
  {
    forall b, e, v
      ensures ForwardAgrees(Unregister(c, a), schema, store, b, e, v) &&
              ReverseAgrees(Unregister(c, a), schema, store, b, e, v)
    {
      assert ForwardAgrees(c, schema, store, b, e, v) && ReverseAgrees(c, schema, store, b, e, v);
    }
  }

  /** An apt operation keeps a flat cache in agreement with the store. */
  lemma {:induction false} PerformFlatAgrees(c: Caches, schema: Schema, store: set<Aev>, op: Op)
    requires WellFormed(c) && Agrees(c, schema, store) && EnabledFlat(c, schema, op) && Apt(c, schema, store, op)
    ensures Agrees(PerformFlat(c, schema, op), schema, StoreAfter(store, op))
  {
    match op
    case Change(rs, ts) => UpdateAgrees(c, schema, store, rs, ts);
    case Forget(a) => ForgetAgrees(c, schema, store, a);
    case ForgetAll =>
    case Enrol(a, f, r, rows) =>
      if a in schema {
        RegisterAgrees(c, schema, store, a, f, r, rows);
      }
  }

  lemma {:induction false} FlatWellFormed(ip: InProgress)
    requires Sound(ip)
    ensures WellFormed(Flat(ip))
  {
  }

  /** Registering the attribute back from no rows shows no value of the inner cache. */
  ghost predicate NothingBack(ip: InProgress, schema: Schema, a: int, fwd: bool, rev: bool)
    requires a in schema
  {
    && (fwd && a in ip.unregF ==>
          forall e :: Vec(Values(ip.inner, schema, a, e)) == [] && ValueOf(ip.inner, schema, a, e).None?)
    && (rev && a in ip.unregR ==>
          forall v :: if schema[a].unique then Entid(ip.inner, a, v).None? else Members(Entids(ip.inner, a, v)) == {})
  }

  /** The operation brings no value back that the store does not have. */
  ghost predicate Quiet(ip: InProgress, schema: Schema, op: Op) {
    op.Enrol? && op.attr in schema && op.rows == [] ==> NothingBack(ip, schema, op.attr, op.fwd, op.rev)
  }

  /** Uncovering no unregistered entry is more than enough. */
  lemma {:induction false} QuietUnlessResurrected(ip: InProgress, schema: Schema, op: Op)
    requires Sound(ip) && Enabled(ip, schema, op) && !Resurrects(ip, schema, op)
    ensures Quiet(ip, schema, op)
  {
  }

  /** The flags of the flat cache after a registration that takes effect, and the entries it has in
      addition to the flat one when there are no rows. */
  lemma {:induction false} EnrolNoRows(ip: InProgress, schema: Schema, a: int, fwd: bool, rev: bool)
    requires Sound(ip) && a in schema && (fwd || rev)
    requires !Skips(schema, Enrol(a, fwd, rev, []), CachedForward(ip, a), CachedReverse(ip, a))
    ensures var c, c' := Flat(ip), Flat(Perform(ip, schema, Enrol(a, fwd, rev, [])));
            && c'.forward == c.forward + Just(fwd, a) && c'.reverse == c.reverse + Just(rev, a)
            && c'.single == (ip.inner.single - (ip.unregF - Just(fwd, a))) + ip.overlay.single
            && c'.multi == (ip.inner.multi - (ip.unregF - Just(fwd, a))) + ip.overlay.multi
            && c'.uniq == (ip.inner.uniq - (ip.unregR - Just(rev, a))) + ip.overlay.uniq
            && c'.nonUniq == (ip.inner.nonUniq - (ip.unregR - Just(rev, a))) + ip.overlay.nonUniq
  {
    assert ip.overlay.forward + Just(fwd && !CachedForward(ip, a), a) == ip.overlay.forward + Just(fwd, a);
    assert ip.overlay.reverse + Just(rev && !CachedReverse(ip, a), a) == ip.overlay.reverse + Just(rev, a);
  }

  /** One kind: an attribute that comes back answers as the inner cache, all else as before. */
  lemma {:induction false} BackLookup<K, V>(over: Kind<K, V>, inner: Kind<K, V>, gone: set<int>, a: int, on: bool,
      b: int, k: K)
    requires a in gone ==> a !in over
    ensures LookupKind((inner - (gone - Just(on, a))) + over, b, k) ==
            if b == a && on && a in gone then LookupKind(inner, a, k) else LookupKind((inner - gone) + over, b, k)
  {
  }

  lemma {:induction false} BackForward(ip: InProgress, schema: Schema, store: set<Aev>, a: int, fwd: bool, rev: bool,
      b: int, e: int)
    requires Sound(ip) && Agrees(Flat(ip), schema, store) && a in schema && (fwd || rev)
    requires !Skips(schema, Enrol(a, fwd, rev, []), CachedForward(ip, a), CachedReverse(ip, a))
    requires Lists([], store, a)
    ensures (forall v :: ForwardAgrees(Flat(Perform(ip, schema, Enrol(a, fwd, rev, []))), schema, store, b, e, v)) <==>
            (b == a && fwd && a in ip.unregF ==>
               Vec(Values(ip.inner, schema, a, e)) == [] && ValueOf(ip.inner, schema, a, e).None?)
  {
    var c, c' := Flat(ip), Flat(Perform(ip, schema, Enrol(a, fwd, rev, [])));
    EnrolNoRows(ip, schema, a, fwd, rev);
    BackLookup(ip.overlay.multi, ip.inner.multi, ip.unregF, a, fwd, b, e);
    BackLookup(ip.overlay.single, ip.inner.single, ip.unregF, a, fwd, b, e);
    forall v ensures ForwardAgrees(c, schema, store, b, e, v) && (b == a ==> Aev(b, e, v) !in store) {
      assert Aev(a, e, v) !in [];
    }
    if b == a && fwd && a in ip.unregF {
      var vs, v := Vec(Values(c', schema, a, e)), ValueOf(c', schema, a, e);
      if vs != [] {
        assert Listed(c', schema, Aev(a, e, vs[0])) > 0;
        assert !ForwardAgrees(c', schema, store, a, e, vs[0]);
      }
      if v.Some? {
        assert !ForwardAgrees(c', schema, store, a, e, v.value);
      }
    }
  }

  lemma {:induction false} BackReverse(ip: InProgress, schema: Schema, store: set<Aev>, a: int, fwd: bool, rev: bool,
      b: int, v: Value)
    requires Sound(ip) && Agrees(Flat(ip), schema, store) && a in schema && (fwd || rev)
    requires !Skips(schema, Enrol(a, fwd, rev, []), CachedForward(ip, a), CachedReverse(ip, a))
    requires Lists([], store, a)
    ensures (forall e :: ReverseAgrees(Flat(Perform(ip, schema, Enrol(a, fwd, rev, []))), schema, store, b, e, v)) <==>
            (b == a && rev && a in ip.unregR ==>
               if schema[a].unique then Entid(ip.inner, a, v).None? else Members(Entids(ip.inner, a, v)) == {})
  {
    var c, c' := Flat(ip), Flat(Perform(ip, schema, Enrol(a, fwd, rev, [])));
    EnrolNoRows(ip, schema, a, fwd, rev);
    BackLookup(ip.overlay.uniq, ip.inner.uniq, ip.unregR, a, rev, b, v);
    BackLookup(ip.overlay.nonUniq, ip.inner.nonUniq, ip.unregR, a, rev, b, v);
    forall e ensures ReverseAgrees(c, schema, store, b, e, v) && (b == a ==> Aev(b, e, v) !in store) {
      assert Aev(a, e, v) !in [];
    }
    if b == a && rev && a in ip.unregR {
      var x, es := Entid(c', a, v), Members(Entids(c', a, v));
      if schema[a].unique && x.Some? {
        assert !ReverseAgrees(c', schema, store, a, x.value, v);
      }
      if !schema[a].unique && es != {} {
        var e := Member(es);
        assert !ReverseAgrees(c', schema, store, a, e, v);
      }
    }
  }

  /** Registering from no rows keeps agreement if and only if nothing comes back. */
  lemma {:induction false} BackAgreesIff(ip: InProgress, schema: Schema, store: set<Aev>, a: int, fwd: bool, rev: bool)
    requires Sound(ip) && Agrees(Flat(ip), schema, store) && a in schema && (fwd || rev) && Lists([], store, a)
    ensures Agrees(Flat(Perform(ip, schema, Enrol(a, fwd, rev, []))), schema, store) <==>
            NothingBack(ip, schema, a, fwd, rev)
  {
    var c' := Flat(Perform(ip, schema, Enrol(a, fwd, rev, [])));
    if !Skips(schema, Enrol(a, fwd, rev, []), CachedForward(ip, a), CachedReverse(ip, a)) {
      if NothingBack(ip, schema, a, fwd, rev) {
        forall b, e, v ensures ForwardAgrees(c', schema, store, b, e, v) && ReverseAgrees(c', schema, store, b, e, v) {
          BackForward(ip, schema, store, a, fwd, rev, b, e);
          BackReverse(ip, schema, store, a, fwd, rev, b, v);
        }
      }
      if Agrees(c', schema, store) {
        forall e ensures fwd && a in ip.unregF ==>
            Vec(Values(ip.inner, schema, a, e)) == [] && ValueOf(ip.inner, schema, a, e).None?
        {
          BackForward(ip, schema, store, a, fwd, rev, a, e);
        }
        forall v ensures rev && a in ip.unregR ==>
            if schema[a].unique then Entid(ip.inner, a, v).None? else Members(Entids(ip.inner, a, v)) == {}
        {
          BackReverse(ip, schema, store, a, fwd, rev, a, v);
        }
      }
    }
  }

  /** One kind: a registration with rows replaces the entry whatever was unregistered. */
  lemma {:induction false} RefilledLookup<K, V>(over: Kind<K, V>, inner: Kind<K, V>, gone: set<int>, op: RowOp<K, V>,
      a: int, rows: seq<Aev>, asked: bool, on: bool, b: int, k: K)
    requires (a in gone ==> a !in over) && (b == a ==> on || !asked)
    ensures LookupKind((inner - (gone - Just(asked, a))) + Refilled(over, op, a, rows, on), b, k) ==
            LookupKind(Refilled((inner - gone) + over, op, a, rows, on), b, k)
  {
  }

  ghost predicate SameForward(c: Caches, c': Caches, schema: Schema, a: int, e: int) {
    && c'.forward == c.forward
    && Values(c', schema, a, e) == Values(c, schema, a, e) && ValueOf(c', schema, a, e) == ValueOf(c, schema, a, e)
  }

  ghost predicate SameReverse(c: Caches, c': Caches, schema: Schema, a: int, v: Value) {
    && c'.reverse == c.reverse
    && (a in schema && schema[a].unique ==> Entid(c', a, v) == Entid(c, a, v))
    && (a in schema && !schema[a].unique ==> Entids(c', a, v) == Entids(c, a, v))
  }

  /** Registering from some rows answers as registering with the flat cache. */
  lemma {:induction false} EnrolRowsForward(ip: InProgress, schema: Schema, op: Op, b: int, e: int)
    requires Refills(ip, schema, op)
    ensures SameForward(PerformFlat(Flat(ip), schema, op), Flat(Perform(ip, schema, op)), schema, b, e)
  {
    var a, attr, f := op.attr, schema[op.attr], op.fwd || CachedForward(ip, op.attr);
    OverlayRefilled(ip, schema, op);
    FlatRefilled(ip, schema, op);
    if b in schema && !schema[b].multival {
      RefilledLookup(ip.overlay.single, ip.inner.single, ip.unregF, SingleOp, a, op.rows, op.fwd,
          f && !attr.multival, b, e);
    }
    if b in schema && schema[b].multival {
      RefilledLookup(ip.overlay.multi, ip.inner.multi, ip.unregF, MultiOp, a, op.rows, op.fwd,
          f && attr.multival, b, e);
    }
  }

  lemma {:induction false} EnrolRowsUnique(ip: InProgress, schema: Schema, op: Op, b: int, v: Value)
    requires Refills(ip, schema, op) && b in schema && schema[b].unique
    ensures LookupKind(Flat(Perform(ip, schema, op)).uniq, b, v) ==
            LookupKind(PerformFlat(Flat(ip), schema, op).uniq, b, v)
  {
    var a, attr, r := op.attr, schema[op.attr], op.rev || CachedReverse(ip, op.attr);
    OverlayRefilled(ip, schema, op);
    FlatRefilled(ip, schema, op);
    RefilledLookup(ip.overlay.uniq, ip.inner.uniq, ip.unregR, UniqOp, a, op.rows, op.rev, r && attr.unique, b, v);
  }

  lemma {:induction false} EnrolRowsNonUnique(ip: InProgress, schema: Schema, op: Op, b: int, v: Value)
    requires Refills(ip, schema, op) && b in schema && !schema[b].unique
    ensures LookupKind(Flat(Perform(ip, schema, op)).nonUniq, b, v) ==
            LookupKind(PerformFlat(Flat(ip), schema, op).nonUniq, b, v)
  {
    var a, attr, r := op.attr, schema[op.attr], op.rev || CachedReverse(ip, op.attr);
    OverlayRefilled(ip, schema, op);
    FlatRefilled(ip, schema, op);
    RefilledLookup(ip.overlay.nonUniq, ip.inner.nonUniq, ip.unregR, NonUniqOp, a, op.rows, op.rev,
        r && !attr.unique, b, v);
  }

  lemma {:induction false} EnrolRowsReverse(ip: InProgress, schema: Schema, op: Op, b: int, v: Value)
    requires Refills(ip, schema, op)
    ensures SameReverse(PerformFlat(Flat(ip), schema, op), Flat(Perform(ip, schema, op)), schema, b, v)
  {
    assert Flat(Perform(ip, schema, op)).reverse == PerformFlat(Flat(ip), schema, op).reverse by {
      OverlayRefilled(ip, schema, op);
      FlatRefilled(ip, schema, op);
    }
    if b in schema {
      if schema[b].unique {
        EnrolRowsUnique(ip, schema, op, b, v);
      } else {
        EnrolRowsNonUnique(ip, schema, op, b, v);
      }
    }
  }

  lemma {:induction false} EnrolRowsAgrees(ip: InProgress, schema: Schema, store: set<Aev>, op: Op)
    requires Sound(ip) && op.Enrol? && Enabled(ip, schema, op) && op.rows != []
    requires EnabledFlat(Flat(ip), schema, op) && Agrees(PerformFlat(Flat(ip), schema, op), schema, store)
    ensures Agrees(Flat(Perform(ip, schema, op)), schema, store)
  {
    FlagsFlat(ip, op.attr);
    if !Skips(schema, op, CachedForward(ip, op.attr), CachedReverse(ip, op.attr)) {
      var c, c' := PerformFlat(Flat(ip), schema, op), Flat(Perform(ip, schema, op));
      forall a, e, v ensures ForwardAgrees(c', schema, store, a, e, v) && ReverseAgrees(c', schema, store, a, e, v) {
        assert ForwardAgrees(c, schema, store, a, e, v) && ReverseAgrees(c, schema, store, a, e, v);
        EnrolRowsForward(ip, schema, op, a, e);
        EnrolRowsReverse(ip, schema, op, a, v);
      }
    }
  }

  /** For every operation that is apt, the layered cache stands for one that agrees with the store after
      it if and only if it brings no value back. */
  lemma {:induction false} PerformAgreesIff(ip: InProgress, schema: Schema, store: set<Aev>, op: Op)
    requires Sound(ip) && Enabled(ip, schema, op) && Agrees(Flat(ip), schema, store)
    requires Apt(Flat(ip), schema, store, op)
    ensures Agrees(Flat(Perform(ip, schema, op)), schema, StoreAfter(store, op)) <==> Quiet(ip, schema, op)
  {
    if op.Enrol? && op.attr in schema && op.rows == [] {
      BackAgreesIff(ip, schema, store, op.attr, op.fwd, op.rev);
    } else {
      PerformFlatIff(ip, schema, op);
      FlatWellFormed(ip);
      PerformFlatAgrees(Flat(ip), schema, store, op);
      if op.Enrol? && op.rows != [] {
        EnrolRowsAgrees(ip, schema, store, op);
      }
    }
  }
}
