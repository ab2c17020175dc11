/** Attribute caches as values: four kinds of map with tombstones, the row-by-row update they
    take, and the lookups they answer.  `CacheObjects` changes them in place. */
module AttributeCache {
  import opened Options
  import Transactor

  type Value = Transactor.Value

  datatype Attribute = Attribute(multival: bool, unique: bool)
  type Schema = map<int, Attribute>

  datatype Aev = Aev(a: int, e: int, v: Value)

  // One kind of cache: for each attribute, a map from entities or from values.
  type Kind<K, V> = map<int, map<K, V>>

  // In the single-valued and the unique maps `None` is the tombstone of a removed entry.
  datatype Caches = Caches(
    forward: set<int>,
    reverse: set<int>,
    single: Kind<int, Option<Value>>,
    multi: Kind<int, seq<Value>>,
    uniq: Kind<Value, Option<int>>,
    nonUniq: Kind<Value, set<int>>)

  const EMPTY := Caches({}, {}, map[], map[], map[], map[])

  // ---------- one row into one kind of cache ----------

  type RowOp<!K, !V> = (map<K, V>, Aev, bool) -> map<K, V>

  function RemoveEvery(vs: seq<Value>, v: Value): seq<Value> {
    if vs == [] then []
    else (if vs[0] == v then [] else [vs[0]]) + RemoveEvery(vs[1..], v)
  }

  function SingleOp(m: map<int, Option<Value>>, row: Aev, add: bool): map<int, Option<Value>> {
    if add then m[row.e := Some(row.v)] else m[row.e := None]
  }

  function MultiOp(m: map<int, seq<Value>>, row: Aev, add: bool): map<int, seq<Value>> {
    if add then m[row.e := (if row.e in m then m[row.e] else []) + [row.v]]
    else if row.e in m then m[row.e := RemoveEvery(m[row.e], row.v)]
    else m
  }

  function UniqOp(m: map<Value, Option<int>>, row: Aev, add: bool): map<Value, Option<int>> {
    if add then m[row.v := Some(row.e)] else m[row.v := None]
  }

  function NonUniqOp(m: map<Value, set<int>>, row: Aev, add: bool): map<Value, set<int>> {
    if add then m[row.v := (if row.v in m then m[row.v] else {}) + {row.e}]
    else if row.v in m then m[row.v := m[row.v] - {row.e}]
    else m
  }

  /** The entry of an attribute, copied whole from the fallback when this cache has none. */
  function Entry<K, V>(kind: Kind<K, V>, fallback: Kind<K, V>, a: int): map<K, V> {
    if a in kind then kind[a] else if a in fallback then fallback[a] else map[]
  }

  function StepKind<K, V>(kind: Kind<K, V>, fallback: Kind<K, V>, op: RowOp<K, V>, row: Aev, add: bool): Kind<K, V> {
    kind[row.a := op(Entry(kind, fallback, row.a), row, add)]
  }

  // ---------- one row into all of them ----------

  // Forward entries are copied only where the fallback caches the attribute forward, and
  // likewise in reverse.
  function ForwardFallback(fallback: Option<Caches>, a: int): Caches {
    if fallback.Some? && a in fallback.value.forward then fallback.value else EMPTY
  }

  function ReverseFallback(fallback: Option<Caches>, a: int): Caches {
    if fallback.Some? && a in fallback.value.reverse then fallback.value else EMPTY
  }

  predicate Cached(c: Caches, a: int) {
    a in c.forward || a in c.reverse
  }

  /** What the original needs of every row: an attribute it knows and caches. */
  predicate Ready(c: Caches, schema: Schema, rows: seq<Aev>) {
    forall i | 0 <= i < |rows| :: rows[i].a in schema && Cached(c, rows[i].a)
  }

  function Step(c: Caches, fallback: Option<Caches>, schema: Schema, row: Aev, add: bool): Caches
    requires row.a in schema
  {
    var f, r := row.a in c.forward, row.a in c.reverse;
    var ff, rf := ForwardFallback(fallback, row.a), ReverseFallback(fallback, row.a);
    var attr := schema[row.a];
    c.(single := if f && !attr.multival then StepKind(c.single, ff.single, SingleOp, row, add) else c.single,
       multi := if f && attr.multival then StepKind(c.multi, ff.multi, MultiOp, row, add) else c.multi,
       uniq := if r && attr.unique then StepKind(c.uniq, rf.uniq, UniqOp, row, add) else c.uniq,
       nonUniq := if r && !attr.unique then StepKind(c.nonUniq, rf.nonUniq, NonUniqOp, row, add) else c.nonUniq)
  }

  function Fold(c: Caches, fallback: Option<Caches>, schema: Schema, rows: seq<Aev>, add: bool): Caches
    requires Ready(c, schema, rows)
    decreases |rows|
  {
    if rows == [] then c
    else Fold(Step(c, fallback, schema, rows[0], add), fallback, schema, rows[1..], add)
  }

  /** Retractions first, then assertions. */
  function Update(c: Caches, fallback: Option<Caches>, schema: Schema, retractions: seq<Aev>,
      assertions: seq<Aev>): Caches
    requires Ready(c, schema, retractions) && Ready(c, schema, assertions)
  {
    FoldKeepsFlags(c, fallback, schema, retractions, false);
    Fold(Fold(c, fallback, schema, retractions, false), fallback, schema, assertions, true)
  }

  lemma {:induction false} FoldKeepsFlags(c: Caches, fallback: Option<Caches>, schema: Schema, rows: seq<Aev>,
      add: bool)
    requires Ready(c, schema, rows)
    ensures Fold(c, fallback, schema, rows, add).forward == c.forward
    ensures Fold(c, fallback, schema, rows, add).reverse == c.reverse
    decreases |rows|
  {
    if rows != [] {
      FoldKeepsFlags(Step(c, fallback, schema, rows[0], add), fallback, schema, rows[1..], add);
    }
  }

  lemma {:induction false} OneRow(c: Caches, fallback: Option<Caches>, schema: Schema, row: Aev, add: bool)
    requires row.a in schema && Cached(c, row.a)
    ensures Ready(c, schema, [row]) && Fold(c, fallback, schema, [row], add) == Step(c, fallback, schema, row, add)
  {
    assert [row][1..] == [];
  }

  // ---------- registering and unregistering ----------

  function ClearKind<K, V>(kind: Kind<K, V>, a: int, cleared: bool): Kind<K, V> {
    if cleared then kind[a := map[]] else kind
  }

  /** Empty the entries that the rows of an attribute are about to refill. */
  function Clear(c: Caches, schema: Schema, a: int): Caches
    requires a in schema
  {
    var f, r, attr := a in c.forward, a in c.reverse, schema[a];
    c.(single := ClearKind(c.single, a, f && !attr.multival),
       multi := ClearKind(c.multi, a, f && attr.multival),
       uniq := ClearKind(c.uniq, a, r && attr.unique),
       nonUniq := ClearKind(c.nonUniq, a, r && !attr.unique))
  }

  /** Refill an attribute from the rows of the store; with no rows nothing is cleared. */
  function Repopulate(c: Caches, schema: Schema, a: int, rows: seq<Aev>): Caches
    requires a in schema && Ready(c, schema, rows)
  {
    if rows == [] then c else Fold(Clear(c, schema, a), None, schema, rows, true)
  }

  function Register(c: Caches, schema: Schema, a: int, forward: bool, reverse: bool, rows: seq<Aev>): Caches
    requires a in schema && (forward || reverse) && forall i | 0 <= i < |rows| :: rows[i].a == a
  {
    Repopulate(c.(forward := c.forward + (if forward then {a} else {}),
                  reverse := c.reverse + (if reverse then {a} else {})),
               schema, a, rows)
  }

  function Unregister(c: Caches, a: int): Caches {
    Caches(c.forward - {a}, c.reverse - {a}, c.single - {a}, c.multi - {a}, c.uniq - {a}, c.nonUniq - {a})
  }

  // ---------- lookups ----------

  function LookupKind<K, V>(kind: Kind<K, V>, a: int, k: K): Option<V> {
    if a in kind && k in kind[a] then Some(kind[a][k]) else None
  }

  function Flatten<T>(o: Option<Option<T>>): Option<T> {
    if o.Some? then o.value else None
  }

  function Values(c: Caches, schema: Schema, a: int, e: int): Option<seq<Value>> {
    if a in schema && schema[a].multival then LookupKind(c.multi, a, e) else None
  }

  function ValueOf(c: Caches, schema: Schema, a: int, e: int): Option<Value> {
    if a in schema && !schema[a].multival then Flatten(LookupKind(c.single, a, e)) else None
  }

  function Entid(c: Caches, a: int, v: Value): Option<int> {
    if a in c.reverse then Flatten(LookupKind(c.uniq, a, v)) else None
  }

  function Entids(c: Caches, a: int, v: Value): Option<set<int>> {
    if a in c.reverse then LookupKind(c.nonUniq, a, v) else None
  }

  // An empty collection says the same as none.
  function Vec(o: Option<seq<Value>>): seq<Value> {
    if o.Some? then o.value else []
  }

  function Members(o: Option<set<int>>): set<int> {
    if o.Some? then o.value else {}
  }

  /** Entries exist only for attributes cached in that direction. */
  ghost predicate WellFormed(c: Caches) {
    c.single.Keys <= c.forward && c.multi.Keys <= c.forward && c.uniq.Keys <= c.reverse && c.nonUniq.Keys <= c.reverse
  }

  lemma {:induction false} FoldWellFormed(c: Caches, fallback: Option<Caches>, schema: Schema, rows: seq<Aev>,
      add: bool)
    requires Ready(c, schema, rows) && WellFormed(c)
    ensures WellFormed(Fold(c, fallback, schema, rows, add))
    decreases |rows|
  {
    if rows != [] {
      FoldWellFormed(Step(c, fallback, schema, rows[0], add), fallback, schema, rows[1..], add);
    }
  }

  lemma {:induction false} RegisterWellFormed(c: Caches, schema: Schema, a: int, forward: bool, reverse: bool,
      rows: seq<Aev>)
    requires a in schema && (forward || reverse) && forall i | 0 <= i < |rows| :: rows[i].a == a
    requires WellFormed(c)
    ensures var c' := Register(c, schema, a, forward, reverse, rows);
            && WellFormed(c')
            && c'.forward == c.forward + (if forward then {a} else {})
            && c'.reverse == c.reverse + (if reverse then {a} else {})
  {
    var c1 := c.(forward := c.forward + (if forward then {a} else {}),
                 reverse := c.reverse + (if reverse then {a} else {}));
    if rows != [] {
      var c2 := Clear(c1, schema, a);
      FoldWellFormed(c2, None, schema, rows, true);
      FoldKeepsFlags(c2, None, schema, rows, true);
    }
  }
}
