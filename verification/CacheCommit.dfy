/** Committing a transaction's cache: the overlay is absorbed into the cache it was taken from. */
module CacheCommit {
  import opened Options
  import opened AttributeCache
  import opened CacheLayering
  import opened CacheLeaks

  /** Dead entries of the other map delete, live entries overwrite. */
  function AbsorbEntry<K, V>(mine: map<K, V>, other: map<K, V>, dead: V -> bool): map<K, V> {
    map k | k in mine.Keys + other.Keys && !(k in other && dead(other[k])) :: if k in other then other[k] else mine[k]
  }

  /** A new attribute is taken whole, dead entries included. */
  function AbsorbKind<A, K, V>(mine: map<A, map<K, V>>, other: map<A, map<K, V>>, dead: V -> bool): map<A, map<K, V>> {
    map a | a in mine.Keys + other.Keys ::
      if a !in other then mine[a] else if a !in mine then other[a] else AbsorbEntry(mine[a], other[a], dead)
  }

  function Tombstone<T>(o: Option<T>): bool { o.None? }
  function NoValues(vs: seq<Value>): bool { vs == [] }
  function NoEntities(es: set<int>): bool { es == {} }

  function Absorb(c: Caches, other: Caches): Caches {
    Caches(c.forward + other.forward, c.reverse + other.reverse,
           AbsorbKind(c.single, other.single, Tombstone),
           AbsorbKind(c.multi, other.multi, NoValues),
           AbsorbKind(c.uniq, other.uniq, Tombstone),
           AbsorbKind(c.nonUniq, other.nonUniq, NoEntities))
  }

  function UnregisterSet(c: Caches, gone: set<int>): Caches {
    Caches(c.forward - gone, c.reverse - gone, c.single - gone, c.multi - gone, c.uniq - gone, c.nonUniq - gone)
  }

  function HasCached(c: Caches): bool {
    c.forward != {} || c.reverse != {}
  }

  /** What a destination holds afterwards. */
  function CommitInto(destination: Caches, ip: InProgress): Caches {
    if !HasCached(destination) then ip.overlay
    else Absorb(UnregisterSet(destination, ip.unregF + ip.unregR), ip.overlay)
  }

  /** Committing to the cache that the transaction began with. */
  function Commit(ip: InProgress): Caches {
    CommitInto(ip.inner, ip)
  }

  // ---------- one kind ----------

  function Live<V>(o: Option<V>, dead: V -> bool): Option<V> {
    if o.Some? && dead(o.value) then None else o
  }

  /** Absorbing answers as the overlay and then what is left of the inner cache, dead entries
      counting as none. */
  lemma {:induction false} AbsorbLookup<K, V>(inner: Kind<K, V>, gone: set<int>, over: Kind<K, V>, dead: V -> bool,
      a: int, k: K)
    ensures Live(LookupKind(AbsorbKind(inner - gone, over, dead), a, k), dead) ==
            Live(OrElse(LookupKind(over, a, k), if a in gone then None else LookupKind(inner, a, k)), dead)
  {
  }

  lemma {:induction false} AbsorbKeys<A, K, V>(mine: map<A, map<K, V>>, other: map<A, map<K, V>>, dead: V -> bool)
    ensures AbsorbKind(mine, other, dead).Keys == mine.Keys + other.Keys
  {
  }

  /** Taking the overlay for an empty destination is absorbing it. */
  lemma {:induction false} CommitAbsorbs(ip: InProgress)
    requires Sound(ip)
    ensures Commit(ip) == Absorb(UnregisterSet(ip.inner, ip.unregF + ip.unregR), ip.overlay)
  {
  }

  // ---------- answers before and after ----------

  /** The attribute was unregistered and registered back in this direction only. */
  predicate HalfwayForward(ip: InProgress, a: int) { a !in ip.unregF && a in ip.unregR }
  predicate HalfwayReverse(ip: InProgress, a: int) { a !in ip.unregR && a in ip.unregF }

  lemma {:induction false} CommitFlags(ip: InProgress, a: int)
    requires Sound(ip)
    ensures a in Commit(ip).forward <==> CachedForward(ip, a)
    ensures a in Commit(ip).reverse <==> CachedReverse(ip, a)
  {
  }

  /** Multi-valued lookups keep their answer unless they read through a half-registered attribute. */
  lemma {:induction false} CommitValues(ip: InProgress, schema: Schema, a: int, e: int)
    requires Sound(ip)
    ensures Vec(Values(Commit(ip), schema, a, e)) == Vec(OverlaidValues(ip, schema, a, e)) <==>
            !(HalfwayForward(ip, a) && Values(ip.overlay, schema, a, e).None? &&
                Vec(Values(ip.inner, schema, a, e)) != [])
  {
  }

  /** Single-valued lookups change there too, and where they read through a tombstone. */
  lemma {:induction false} CommitValue(ip: InProgress, schema: Schema, a: int, e: int)
    requires Sound(ip)
    ensures ValueOf(Commit(ip), schema, a, e) == OverlaidValue(ip, schema, a, e) <==>
            !(Stale(ip, schema, a, e) ||
              (HalfwayForward(ip, a) && ValueOf(ip.overlay, schema, a, e).None? &&
                  ValueOf(ip.inner, schema, a, e).Some?))
  {
  }

  lemma {:induction false} CommitEntid(ip: InProgress, a: int, v: Value)
    requires Sound(ip)
    ensures Entid(Commit(ip), a, v) == OverlaidEntid(ip, a, v) <==>
            !(HalfwayReverse(ip, a) && LookupKind(ip.overlay.uniq, a, v).None? && Entid(ip.inner, a, v).Some?)
  {
  }

  lemma {:induction false} CommitEntids(ip: InProgress, a: int, v: Value)
    requires Sound(ip)
    ensures Members(Entids(Commit(ip), a, v)) == Members(OverlaidEntids(ip, a, v)) <==>
            !(HalfwayReverse(ip, a) && Entids(ip.overlay, a, v).None? && Members(Entids(ip.inner, a, v)) != {})
  {
  }

  // ---------- the committed cache and the flat cache ----------

  /** Commit and the flat cache part at a key: registered back in this direction only, the inner entry
      is dropped although no overlay entry replaces it; refilled, the overlay's entry lost a key that the
      inner one keeps.  `gone` and `other` are the attributes unregistered in this direction and in the
      other one. */
  predicate Strays<K, V>(over: Kind<K, V>, inner: Kind<K, V>, gone: set<int>, other: set<int>, a: int, k: K) {
    a !in gone && if a in other then a !in over else Leaks(over, inner, a, k)
  }

  predicate ValuesStray(ip: InProgress, schema: Schema, a: int, e: int) {
    Strays(ip.overlay.multi, ip.inner.multi, ip.unregF, ip.unregR, a, e) && Vec(Values(ip.inner, schema, a, e)) != []
  }

  predicate ValueStrays(ip: InProgress, schema: Schema, a: int, e: int) {
    Strays(ip.overlay.single, ip.inner.single, ip.unregF, ip.unregR, a, e) && ValueOf(ip.inner, schema, a, e).Some?
  }

  predicate EntidStrays(ip: InProgress, a: int, v: Value) {
    Strays(ip.overlay.uniq, ip.inner.uniq, ip.unregR, ip.unregF, a, v) && Entid(ip.inner, a, v).Some?
  }

  predicate EntidsStray(ip: InProgress, a: int, v: Value) {
    Strays(ip.overlay.nonUniq, ip.inner.nonUniq, ip.unregR, ip.unregF, a, v) && Members(Entids(ip.inner, a, v)) != {}
  }

  /** A committed multi-valued lookup is that of the flat cache unless it strays; where it does, one of
      the two answers with the inner values and the other with none. */
  lemma {:induction false} CommittedValuesIff(ip: InProgress, schema: Schema, a: int, e: int)
    requires Sound(ip)
    ensures var committed, flat := Vec(Values(Commit(ip), schema, a, e)), Vec(Values(Flat(ip), schema, a, e));
            && (committed == flat <==> !ValuesStray(ip, schema, a, e))
            && (committed != flat ==> {committed, flat} == {[], Vec(Values(ip.inner, schema, a, e))})
  {
    CommitAbsorbs(ip);
    CommitFlags(ip, a);
    AbsorbLookup(ip.inner.multi, ip.unregF + ip.unregR, ip.overlay.multi, NoValues, a, e);
  }

  lemma {:induction false} CommittedValueIff(ip: InProgress, schema: Schema, a: int, e: int)
    requires Sound(ip)
    ensures ValueOf(Commit(ip), schema, a, e) == ValueOf(Flat(ip), schema, a, e) <==> !ValueStrays(ip, schema, a, e)
  {
    CommitAbsorbs(ip);
    CommitFlags(ip, a);
    AbsorbLookup(ip.inner.single, ip.unregF + ip.unregR, ip.overlay.single, Tombstone, a, e);
  }

  lemma {:induction false} CommittedEntidIff(ip: InProgress, a: int, v: Value)
    requires Sound(ip)
    ensures Entid(Commit(ip), a, v) == Entid(Flat(ip), a, v) <==> !EntidStrays(ip, a, v)
  {
    CommitAbsorbs(ip);
    CommitFlags(ip, a);
    AbsorbLookup(ip.inner.uniq, ip.unregF + ip.unregR, ip.overlay.uniq, Tombstone, a, v);
  }

  lemma {:induction false} CommittedEntidsIff(ip: InProgress, a: int, v: Value)
    requires Sound(ip)
    ensures var committed, flat := Members(Entids(Commit(ip), a, v)), Members(Entids(Flat(ip), a, v));
            && (committed == flat <==> !EntidsStray(ip, a, v))
            && (committed != flat ==> {committed, flat} == {{}, Members(Entids(ip.inner, a, v))})
  {
    CommitAbsorbs(ip);
    CommitFlags(ip, a);
    AbsorbLookup(ip.inner.nonUniq, ip.unregF + ip.unregR, ip.overlay.nonUniq, NoEntities, a, v);
  }

  /** No lookup strays. */
  ghost predicate NoStrays(ip: InProgress, schema: Schema) {
    && (forall a, e :: !ValuesStray(ip, schema, a, e) && !ValueStrays(ip, schema, a, e))
    && (forall a, v | a in schema ::
          !(schema[a].unique && EntidStrays(ip, a, v)) && !(!schema[a].unique && EntidsStray(ip, a, v)))
  }

  /** Where the overlay refines a flat cache nothing strays: commit yields that flat cache, in all four
      kinds of lookup and the flags. */
  lemma {:induction false} CommittedIsFlat(ip: InProgress, flat: Caches, schema: Schema, a: int, e: int, v: Value)
    requires Refines(ip, flat)
    ensures Vec(Values(Commit(ip), schema, a, e)) == Vec(Values(flat, schema, a, e))
    ensures ValueOf(Commit(ip), schema, a, e) == ValueOf(flat, schema, a, e)
    ensures Entid(Commit(ip), a, v) == Entid(flat, a, v)
    ensures Members(Entids(Commit(ip), a, v)) == Members(Entids(flat, a, v))
    ensures a in Commit(ip).forward <==> a in flat.forward
    ensures a in Commit(ip).reverse <==> a in flat.reverse
  {
    CommittedValuesIff(ip, schema, a, e);
    CommittedValueIff(ip, schema, a, e);
    CommittedEntidIff(ip, a, v);
    CommittedEntidsIff(ip, a, v);
    CommitFlags(ip, a);
  }

  // ---------- examples ----------

  /** An attribute registered back in one direction answers with its old values until the commit, and
      with none after it. */
  lemma {:induction false} HalfwayExample(v: Value) returns (inner: Caches, schema: Schema, ip: InProgress)
    ensures WellFormed(inner) && Sound(ip) && HalfwayForward(ip, 10)
    ensures ip == Perform(Perform(FromCache(inner), schema, Forget(10)), schema, Enrol(10, true, false, []))
    ensures OverlaidValues(ip, schema, 10, 1) == Some([v]) && Values(Commit(ip), schema, 10, 1) == None
  {
    var flat;
    inner, schema, ip, flat := ResurrectionExample(v);
    CommitValues(ip, schema, 10, 1);
  }

  /** A stale tombstone answers with the old value until the commit, and with none after it. */
  lemma {:induction false} TombstoneExample(v: Value) returns (inner: Caches, schema: Schema, op: Op)
    ensures WellFormed(inner) && op == Change([Aev(10, 1, v)], []) && Enabled(FromCache(inner), schema, op)
    ensures OverlaidValue(Perform(FromCache(inner), schema, op), schema, 10, 1) == Some(v)
    ensures ValueOf(Commit(Perform(FromCache(inner), schema, op)), schema, 10, 1) == None
  {
    inner, schema, op := StaleTombstoneExample(v);
    FreshRefines(inner);
    PerformRefines(FromCache(inner), inner, schema, op);
    CommittedIsFlat(Perform(FromCache(inner), schema, op), PerformFlat(inner, schema, op), schema, 10, 1, v);
  }
}
