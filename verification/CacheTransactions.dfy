/** Whole sequences of operations on the copy-on-write cache, with the exact condition under which each
    lookup answers as the flat cache that took the same sequence. */
module CacheTransactions {
  import opened AttributeCache
  import opened CacheLayering
  import opened CacheOperations

  predicate Legal(ip: InProgress, schema: Schema, ops: seq<Op>)
    decreases |ops|
  {
    ops == [] || (Enabled(ip, schema, ops[0]) && Legal(Perform(ip, schema, ops[0]), schema, ops[1..]))
  }

  function Execute(ip: InProgress, schema: Schema, ops: seq<Op>): InProgress
    requires Legal(ip, schema, ops)
    decreases |ops|
  {
    if ops == [] then ip else Execute(Perform(ip, schema, ops[0]), schema, ops[1..])
  }

  predicate LegalFlat(c: Caches, schema: Schema, ops: seq<Op>)
    decreases |ops|
  {
    ops == [] || (EnabledFlat(c, schema, ops[0]) && LegalFlat(PerformFlat(c, schema, ops[0]), schema, ops[1..]))
  }

  function ExecuteFlat(c: Caches, schema: Schema, ops: seq<Op>): Caches
    requires LegalFlat(c, schema, ops)
    decreases |ops|
  {
    if ops == [] then c else ExecuteFlat(PerformFlat(c, schema, ops[0]), schema, ops[1..])
  }

  /** No operation on the way brings an unregistered entry back. */
  predicate Undisturbed(ip: InProgress, schema: Schema, ops: seq<Op>)
    requires Legal(ip, schema, ops)
    decreases |ops|
  {
    ops == [] || (!Resurrects(ip, schema, ops[0]) && Undisturbed(Perform(ip, schema, ops[0]), schema, ops[1..]))
  }

  lemma {:induction false} ExecuteSound(ip: InProgress, schema: Schema, ops: seq<Op>)
    requires Sound(ip) && Legal(ip, schema, ops)
    ensures Sound(Execute(ip, schema, ops))
    decreases |ops|
  {
    if ops != [] {
      PerformSound(ip, schema, ops[0]);
      ExecuteSound(Perform(ip, schema, ops[0]), schema, ops[1..]);
    }
  }

  lemma {:induction false} ExecuteIsFlat(ip: InProgress, schema: Schema, ops: seq<Op>)
    requires Sound(ip) && Legal(ip, schema, ops) && Undisturbed(ip, schema, ops)
    ensures LegalFlat(Flat(ip), schema, ops)
    ensures Flat(Execute(ip, schema, ops)) == ExecuteFlat(Flat(ip), schema, ops)
    decreases |ops|
  {
    if ops != [] {
      PerformSound(ip, schema, ops[0]);
      PerformFlatIff(ip, schema, ops[0]);
      ExecuteIsFlat(Perform(ip, schema, ops[0]), schema, ops[1..]);
    }
  }

  lemma {:induction false} FreshFlat(inner: Caches)
    requires WellFormed(inner)
    ensures Sound(FromCache(inner)) && Flat(FromCache(inner)) == inner
  {
  }

  /** The lookups that answer differently from the flat cache, each with its exact condition. */
  ghost predicate AnswersExcept(ip: InProgress, flat: Caches, schema: Schema, a: int, e: int, v: Value) {
    && (OverlaidValues(ip, schema, a, e) == Values(flat, schema, a, e) <==>
        !(a in schema && schema[a].multival && a !in ip.unregF && Leaks(ip.overlay.multi, ip.inner.multi, a, e)))
    && (OverlaidValue(ip, schema, a, e) == ValueOf(flat, schema, a, e) <==>
        !(Stale(ip, schema, a, e) ||
          (a !in ip.unregF && Leaks(ip.overlay.single, ip.inner.single, a, e) &&
              ValueOf(ip.inner, schema, a, e).Some?)))
    && (OverlaidEntid(ip, a, v) == Entid(flat, a, v) <==>
        !(a !in ip.unregR && Leaks(ip.overlay.uniq, ip.inner.uniq, a, v) && Entid(ip.inner, a, v).Some?))
    && (OverlaidEntids(ip, a, v) == Entids(flat, a, v) <==>
        !(a !in ip.unregR && Leaks(ip.overlay.nonUniq, ip.inner.nonUniq, a, v)))
    && (CachedForward(ip, a) <==> a in flat.forward)
    && (CachedReverse(ip, a) <==> a in flat.reverse)
  }

  /** After any sequence of operations that brings nothing back, the layered cache relates to the
      plain cache that took the same operations: flags agree, and each lookup agrees if and only if
      it does not leak through the overlay. */
  lemma {:induction false} LayeredRefinesFlat(inner: Caches, schema: Schema, ops: seq<Op>, a: int, e: int, v: Value)
    requires WellFormed(inner) && Legal(FromCache(inner), schema, ops) && Undisturbed(FromCache(inner), schema, ops)
    ensures LegalFlat(inner, schema, ops)
    ensures AnswersExcept(Execute(FromCache(inner), schema, ops), ExecuteFlat(inner, schema, ops), schema, a, e, v)
  {
    FreshFlat(inner);
    ExecuteIsFlat(FromCache(inner), schema, ops);
    ExecuteSound(FromCache(inner), schema, ops);
    var ip := Execute(FromCache(inner), schema, ops);
    ValuesFlatIff(ip, schema, a, e);
    ValueFlatIff(ip, schema, a, e);
    EntidFlatIff(ip, a, v);
    EntidsFlatIff(ip, a, v);
    FlagsFlat(ip, a);
  }
}
