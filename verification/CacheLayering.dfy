/** The copy-on-write cache of a transaction: an overlay over an immutable inner cache, with the
    attributes it has unregistered.  It denotes one flat cache; this module says when it answers as
    that flat cache. */
module CacheLayering {
  import opened Options
  import opened AttributeCache

  datatype InProgress = InProgress(inner: Caches, overlay: Caches, unregF: set<int>, unregR: set<int>)

  function FromCache(inner: Caches): InProgress {
    InProgress(inner, EMPTY.(forward := inner.forward, reverse := inner.reverse), {}, {})
  }

  // ---------- operations inside a transaction ----------

  datatype Op =
    | Change(retractions: seq<Aev>, assertions: seq<Aev>)
    | Forget(a: int)
    | ForgetAll
    | Enrol(attr: int, fwd: bool, rev: bool, rows: seq<Aev>)

  function CachedForward(ip: InProgress, a: int): bool {
    a !in ip.unregF && (a in ip.inner.forward || a in ip.overlay.forward)
  }

  function CachedReverse(ip: InProgress, a: int): bool {
    a !in ip.unregR && (a in ip.inner.reverse || a in ip.overlay.reverse)
  }

  /** What each operation needs: rows of known, cached attributes to change, rows of the attribute to
      register. */
  predicate Enabled(ip: InProgress, schema: Schema, op: Op) {
    match op
    case Change(rs, ts) => Ready(ip.overlay, schema, rs) && Ready(ip.overlay, schema, ts)
    case Forget(_) => true
    case ForgetAll => true
    case Enrol(a, f, r, rows) => (f || r) && forall i | 0 <= i < |rows| :: rows[i].a == a
  }

  // Registration fails for an unknown attribute and does nothing where every direction asked for is
  // cached already.
  predicate Skips(schema: Schema, op: Op, forward: bool, reverse: bool)
    requires op.Enrol?
  {
    op.attr !in schema || ((op.fwd ==> forward) && (op.rev ==> reverse))
  }

  function Just(on: bool, a: int): set<int> {
    if on then {a} else {}
  }

  function Perform(ip: InProgress, schema: Schema, op: Op): InProgress
    requires Enabled(ip, schema, op)
  {
    match op
    case Change(rs, ts) => ip.(overlay := Update(ip.overlay, Some(ip.inner), schema, rs, ts))
    case Forget(a) => ip.(overlay := Unregister(ip.overlay, a), unregF := ip.unregF + {a}, unregR := ip.unregR + {a})
    case ForgetAll => ip.(overlay := EMPTY, unregF := ip.unregF + ip.inner.forward,
                           unregR := ip.unregR + ip.inner.reverse)
    case Enrol(a, f, r, rows) =>
      var forward, reverse := CachedForward(ip, a), CachedReverse(ip, a);
      if Skips(schema, op, forward, reverse) then ip
      else ip.(overlay := Register(ip.overlay, schema, a, f && !forward, r && !reverse, rows),
               unregF := ip.unregF - Just(f, a), unregR := ip.unregR - Just(r, a))
  }

  predicate EnabledFlat(c: Caches, schema: Schema, op: Op) {
    match op
    case Change(rs, ts) => Ready(c, schema, rs) && Ready(c, schema, ts)
    case Forget(_) => true
    case ForgetAll => true
    case Enrol(a, f, r, rows) => (f || r) && forall i | 0 <= i < |rows| :: rows[i].a == a
  }

  /** The same operation on one plain cache, which skips a registration for the same reasons. */
  function PerformFlat(c: Caches, schema: Schema, op: Op): Caches
    requires EnabledFlat(c, schema, op)
  {
    match op
    case Change(rs, ts) => Update(c, None, schema, rs, ts)
    case Forget(a) => Unregister(c, a)
    case ForgetAll => EMPTY
    case Enrol(a, f, r, rows) =>
      if Skips(schema, op, a in c.forward, a in c.reverse) then c else Register(c, schema, a, f, r, rows)
  }

  // ---------- lookups: overlay first, then inner ----------

  function OrElse<T>(o: Option<T>, p: Option<T>): Option<T> {
    if o.Some? then o else p
  }

  function OverlaidValues(ip: InProgress, schema: Schema, a: int, e: int): Option<seq<Value>> {
    if a in ip.unregF then None
    else OrElse(Values(ip.overlay, schema, a, e), Values(ip.inner, schema, a, e))
  }

  // A tombstone in the overlay reads as "not present", and the lookup falls through.
  function OverlaidValue(ip: InProgress, schema: Schema, a: int, e: int): Option<Value> {
    if a in ip.unregF then None
    else OrElse(ValueOf(ip.overlay, schema, a, e), ValueOf(ip.inner, schema, a, e))
  }

  // A tombstone in the overlay is an answer here.
  function OverlaidEntid(ip: InProgress, a: int, v: Value): Option<int> {
    if a in ip.unregR then None
    else if a in ip.overlay.reverse && LookupKind(ip.overlay.uniq, a, v).Some?
    then LookupKind(ip.overlay.uniq, a, v).value
    else Entid(ip.inner, a, v)
  }

  function OverlaidEntids(ip: InProgress, a: int, v: Value): Option<set<int>> {
    if a in ip.unregR then None
    else OrElse(Entids(ip.overlay, a, v), Entids(ip.inner, a, v))
  }

  // ---------- the invariant of a transaction's cache ----------

  ghost predicate Sound(ip: InProgress) {
    && WellFormed(ip.inner) && WellFormed(ip.overlay)
    && ip.unregF !! ip.overlay.forward && ip.unregR !! ip.overlay.reverse
    && ip.inner.forward - ip.unregF <= ip.overlay.forward
    && ip.inner.reverse - ip.unregR <= ip.overlay.reverse
  }

  // ---------- the flat cache it denotes ----------

  /** Attribute by attribute, the overlay's entry or else the inner one that is still registered. */
  function Flat(ip: InProgress): Caches {
    Caches(ip.overlay.forward, ip.overlay.reverse,
           (ip.inner.single - ip.unregF) + ip.overlay.single,
           (ip.inner.multi - ip.unregF) + ip.overlay.multi,
           (ip.inner.uniq - ip.unregR) + ip.overlay.uniq,
           (ip.inner.nonUniq - ip.unregR) + ip.overlay.nonUniq)
  }

  /** The overlay's entry lacks a key that the inner entry still has, so a lookup falls through. */
  predicate Leaks<K, V>(over: Kind<K, V>, inner: Kind<K, V>, a: int, k: K) {
    a in over && k !in over[a] && LookupKind(inner, a, k).Some?
  }

  /** The overlay holds a tombstone for an entity to which the inner cache still gives a value. */
  predicate Stale(ip: InProgress, schema: Schema, a: int, e: int) {
    a !in ip.unregF && LookupKind(ip.overlay.single, a, e) == Some(None) && ValueOf(ip.inner, schema, a, e).Some?
  }

  lemma {:induction false} ValuesFlatIff(ip: InProgress, schema: Schema, a: int, e: int)
    requires Sound(ip)
    ensures OverlaidValues(ip, schema, a, e) == Values(Flat(ip), schema, a, e) <==>
            !(a in schema && schema[a].multival && a !in ip.unregF && Leaks(ip.overlay.multi, ip.inner.multi, a, e))
  {
  }

  /** Single-valued lookups differ from the flat cache at stale tombstones as well. */
  lemma {:induction false} ValueFlatIff(ip: InProgress, schema: Schema, a: int, e: int)
    requires Sound(ip)
    ensures OverlaidValue(ip, schema, a, e) == ValueOf(Flat(ip), schema, a, e) <==>
            !(Stale(ip, schema, a, e) ||
              (a !in ip.unregF && Leaks(ip.overlay.single, ip.inner.single, a, e) &&
                  ValueOf(ip.inner, schema, a, e).Some?))
  {
  }

  lemma {:induction false} EntidFlatIff(ip: InProgress, a: int, v: Value)
    requires Sound(ip)
    ensures OverlaidEntid(ip, a, v) == Entid(Flat(ip), a, v) <==>
            !(a !in ip.unregR && Leaks(ip.overlay.uniq, ip.inner.uniq, a, v) && Entid(ip.inner, a, v).Some?)
  {
  }

  lemma {:induction false} EntidsFlatIff(ip: InProgress, a: int, v: Value)
    requires Sound(ip)
    ensures OverlaidEntids(ip, a, v) == Entids(Flat(ip), a, v) <==>
            !(a !in ip.unregR && Leaks(ip.overlay.nonUniq, ip.inner.nonUniq, a, v))
  {
  }

  lemma {:induction false} FlagsFlat(ip: InProgress, a: int)
    requires Sound(ip)
    ensures CachedForward(ip, a) <==> a in Flat(ip).forward
    ensures CachedReverse(ip, a) <==> a in Flat(ip).reverse
  {
  }
}
