/** Operations on the copy-on-write cache against the same operations on the flat cache it denotes: what
    each of them keeps, and exactly when the two are the same. */
module CacheOperations {
  import opened Options
  import opened AttributeCache
  import opened CacheLayering

  // ---------- rows ----------

  lemma {:induction false} StepKindFlat<K, V>(over: Kind<K, V>, inner: Kind<K, V>, gone: set<int>, fallback: Kind<K, V>,
      op: RowOp<K, V>, row: Aev, add: bool)
    requires row.a !in gone && (fallback == inner || (fallback == map[] && row.a !in inner))
    ensures (inner - gone) + StepKind(over, fallback, op, row, add) ==
            StepKind((inner - gone) + over, map[], op, row, add)
  {
  }

  lemma {:induction false} StepSound(ip: InProgress, schema: Schema, row: Aev, add: bool)
    requires Sound(ip) && row.a in schema
    ensures Sound(ip.(overlay := Step(ip.overlay, Some(ip.inner), schema, row, add)))
  {
  }

  lemma {:induction false} StepForwardFlat(ip: InProgress, schema: Schema, row: Aev, add: bool)
    requires Sound(ip) && row.a in schema
    ensures var over, flat := Step(ip.overlay, Some(ip.inner), schema, row, add),
            Step(Flat(ip), None, schema, row, add);
            && (ip.inner.single - ip.unregF) + over.single == flat.single
            && (ip.inner.multi - ip.unregF) + over.multi == flat.multi
  {
    var ff := ForwardFallback(Some(ip.inner), row.a);
    if row.a in ip.overlay.forward {
      StepKindFlat(ip.overlay.single, ip.inner.single, ip.unregF, ff.single, SingleOp, row, add);
      StepKindFlat(ip.overlay.multi, ip.inner.multi, ip.unregF, ff.multi, MultiOp, row, add);
    }
  }

  lemma {:induction false} StepReverseFlat(ip: InProgress, schema: Schema, row: Aev, add: bool)
    requires Sound(ip) && row.a in schema
    ensures var over, flat := Step(ip.overlay, Some(ip.inner), schema, row, add),
            Step(Flat(ip), None, schema, row, add);
            && (ip.inner.uniq - ip.unregR) + over.uniq == flat.uniq
            && (ip.inner.nonUniq - ip.unregR) + over.nonUniq == flat.nonUniq
  {
    var rf := ReverseFallback(Some(ip.inner), row.a);
    if row.a in ip.overlay.reverse {
      StepKindFlat(ip.overlay.uniq, ip.inner.uniq, ip.unregR, rf.uniq, UniqOp, row, add);
      StepKindFlat(ip.overlay.nonUniq, ip.inner.nonUniq, ip.unregR, rf.nonUniq, NonUniqOp, row, add);
    }
  }

  lemma {:induction false} StepFlat(ip: InProgress, schema: Schema, row: Aev, add: bool)
    requires Sound(ip) && row.a in schema
    ensures var ip' := ip.(overlay := Step(ip.overlay, Some(ip.inner), schema, row, add));
            Sound(ip') && Flat(ip') == Step(Flat(ip), None, schema, row, add)
  {
    StepSound(ip, schema, row, add);
    StepForwardFlat(ip, schema, row, add);
    StepReverseFlat(ip, schema, row, add);
  }

  lemma {:induction false} FoldFlat(ip: InProgress, schema: Schema, rows: seq<Aev>, add: bool)
    requires Sound(ip) && Ready(ip.overlay, schema, rows)
    ensures Ready(Flat(ip), schema, rows)
    ensures var ip' := ip.(overlay := Fold(ip.overlay, Some(ip.inner), schema, rows, add));
            Sound(ip') && Flat(ip') == Fold(Flat(ip), None, schema, rows, add)
    decreases |rows|
  {
    if rows != [] {
      StepFlat(ip, schema, rows[0], add);
      FoldFlat(ip.(overlay := Step(ip.overlay, Some(ip.inner), schema, rows[0], add)), schema, rows[1..], add);
    }
  }

  lemma {:induction false} ChangeFlat(ip: InProgress, schema: Schema, rs: seq<Aev>, ts: seq<Aev>)
    requires Sound(ip) && Ready(ip.overlay, schema, rs) && Ready(ip.overlay, schema, ts)
    ensures Ready(Flat(ip), schema, rs) && Ready(Flat(ip), schema, ts)
    ensures var ip' := Perform(ip, schema, Change(rs, ts));
            Sound(ip') && Flat(ip') == Update(Flat(ip), None, schema, rs, ts)
  {
    FoldFlat(ip, schema, rs, false);
    FoldKeepsFlags(ip.overlay, Some(ip.inner), schema, rs, false);
    FoldFlat(ip.(overlay := Fold(ip.overlay, Some(ip.inner), schema, rs, false)), schema, ts, true);
  }

  // ---------- registering ----------

  /** The entry that a list of rows builds up. */
  function Built<K, V>(m: map<K, V>, op: RowOp<K, V>, rows: seq<Aev>): map<K, V>
    decreases |rows|
  {
    if rows == [] then m else Built(op(m, rows[0], true), op, rows[1..])
  }

  function Refilled<K, V>(kind: Kind<K, V>, op: RowOp<K, V>, a: int, rows: seq<Aev>, on: bool): Kind<K, V> {
    if on then kind[a := Built(map[], op, rows)] else kind
  }

  /** The entries that rows of the attribute will go into are there. */
  predicate Opened(c: Caches, schema: Schema, a: int)
    requires a in schema
  {
    && (a in c.forward ==> if schema[a].multival then a in c.multi else a in c.single)
    && (a in c.reverse ==> if schema[a].unique then a in c.uniq else a in c.nonUniq)
  }

  lemma {:induction false} FoldForward(c: Caches, schema: Schema, a: int, rows: seq<Aev>)
    requires a in schema && Opened(c, schema, a) && Ready(c, schema, rows)
    requires forall i | 0 <= i < |rows| :: rows[i].a == a
    ensures var f, attr, c' := a in c.forward, schema[a], Fold(c, None, schema, rows, true);
            && c'.single ==
               (if f && !attr.multival then c.single[a := Built(c.single[a], SingleOp, rows)] else c.single)
            && c'.multi == if f && attr.multival then c.multi[a := Built(c.multi[a], MultiOp, rows)] else c.multi
    decreases |rows|
  {
    if rows != [] {
      FoldForward(Step(c, None, schema, rows[0], true), schema, a, rows[1..]);
    }
  }

  lemma {:induction false} FoldReverse(c: Caches, schema: Schema, a: int, rows: seq<Aev>)
    requires a in schema && Opened(c, schema, a) && Ready(c, schema, rows)
    requires forall i | 0 <= i < |rows| :: rows[i].a == a
    ensures var r, attr, c' := a in c.reverse, schema[a], Fold(c, None, schema, rows, true);
            && c'.uniq == (if r && attr.unique then c.uniq[a := Built(c.uniq[a], UniqOp, rows)] else c.uniq)
            && c'.nonUniq ==
               (if r && !attr.unique then c.nonUniq[a := Built(c.nonUniq[a], NonUniqOp, rows)] else c.nonUniq)
    decreases |rows|
  {
    if rows != [] {
      FoldReverse(Step(c, None, schema, rows[0], true), schema, a, rows[1..]);
    }
  }

  lemma {:induction false} ClearThenBuild<K, V>(kind: Kind<K, V>, op: RowOp<K, V>, a: int, rows: seq<Aev>, on: bool)
    ensures on ==>
            ClearKind(kind, a, on)[a := Built(ClearKind(kind, a, on)[a], op, rows)] ==
            Refilled(kind, op, a, rows, on)
  {
  }

  lemma {:induction false} RefillForward(c: Caches, schema: Schema, a: int, rows: seq<Aev>)
    requires a in schema && Cached(c, a) && forall i | 0 <= i < |rows| :: rows[i].a == a
    ensures var f, attr, c' := a in c.forward, schema[a], Fold(Clear(c, schema, a), None, schema, rows, true);
            && c'.single == Refilled(c.single, SingleOp, a, rows, f && !attr.multival)
            && c'.multi == Refilled(c.multi, MultiOp, a, rows, f && attr.multival)
  {
    FoldForward(Clear(c, schema, a), schema, a, rows);
    ClearThenBuild(c.single, SingleOp, a, rows, a in c.forward && !schema[a].multival);
    ClearThenBuild(c.multi, MultiOp, a, rows, a in c.forward && schema[a].multival);
  }

  lemma {:induction false} RefillReverse(c: Caches, schema: Schema, a: int, rows: seq<Aev>)
    requires a in schema && Cached(c, a) && forall i | 0 <= i < |rows| :: rows[i].a == a
    ensures var r, attr, c' := a in c.reverse, schema[a], Fold(Clear(c, schema, a), None, schema, rows, true);
            && c'.uniq == Refilled(c.uniq, UniqOp, a, rows, r && attr.unique)
            && c'.nonUniq == Refilled(c.nonUniq, NonUniqOp, a, rows, r && !attr.unique)
  {
    FoldReverse(Clear(c, schema, a), schema, a, rows);
    ClearThenBuild(c.uniq, UniqOp, a, rows, a in c.reverse && schema[a].unique);
    ClearThenBuild(c.nonUniq, NonUniqOp, a, rows, a in c.reverse && !schema[a].unique);
  }

  /** A registration sets flags and, unless there are no rows, replaces one entry of each kind. */
  lemma {:induction false} RegisterShape(c: Caches, schema: Schema, a: int, fwd: bool, rev: bool, rows: seq<Aev>)
    requires a in schema && (fwd || rev) && forall i | 0 <= i < |rows| :: rows[i].a == a
    ensures var c1 := c.(forward := c.forward + Just(fwd, a), reverse := c.reverse + Just(rev, a));
            var f, r, attr, any := a in c1.forward, a in c1.reverse, schema[a], rows != [];
            Register(c, schema, a, fwd, rev, rows) ==
            c1.(single := Refilled(c.single, SingleOp, a, rows, any && f && !attr.multival),
                multi := Refilled(c.multi, MultiOp, a, rows, any && f && attr.multival),
                uniq := Refilled(c.uniq, UniqOp, a, rows, any && r && attr.unique),
                nonUniq := Refilled(c.nonUniq, NonUniqOp, a, rows, any && r && !attr.unique))
  {
    if rows != [] {
      var c1 := c.(forward := c.forward + Just(fwd, a), reverse := c.reverse + Just(rev, a));
      RefillForward(c1, schema, a, rows);
      RefillReverse(c1, schema, a, rows);
      FoldKeepsFlags(Clear(c1, schema, a), None, schema, rows, true);
    }
  }

  /** An unregistered entry of the inner cache comes back, because no rows replace it. */
  predicate Revives<K, V>(inner: Kind<K, V>, gone: set<int>, a: int, asked: bool, replaced: bool) {
    asked && a in gone && a in inner && !replaced
  }

  predicate Resurrects(ip: InProgress, schema: Schema, op: Op) {
    op.Enrol? && op.attr in schema &&
    var a, attr, any := op.attr, schema[op.attr], op.rows != [];
    || Revives(ip.inner.single, ip.unregF, a, op.fwd, any && !attr.multival)
    || Revives(ip.inner.multi, ip.unregF, a, op.fwd, any && attr.multival)
    || Revives(ip.inner.uniq, ip.unregR, a, op.rev, any && attr.unique)
    || Revives(ip.inner.nonUniq, ip.unregR, a, op.rev, any && !attr.unique)
  }

  lemma {:induction false} RefilledFlatIff<K, V>(over: Kind<K, V>, inner: Kind<K, V>, gone: set<int>,
      op: RowOp<K, V>, a: int, rows: seq<Aev>, asked: bool, on: bool)
    requires a in gone ==> a !in over
    ensures (inner - (gone - Just(asked, a))) + Refilled(over, op, a, rows, on) ==
            Refilled((inner - gone) + over, op, a, rows, on)
            <==> !Revives(inner, gone, a, asked, on)
  {
    var left := (inner - (gone - Just(asked, a))) + Refilled(over, op, a, rows, on);
    var right := Refilled((inner - gone) + over, op, a, rows, on);
    forall b ensures (b in left <==> b in right) <==> !(b == a && Revives(inner, gone, a, asked, on)) {
    }
    forall b | b in left && b in right ensures left[b] == right[b] {
    }
    if !Revives(inner, gone, a, asked, on) {
      assert left == right;
    } else {
      assert a in left && a !in right;
    }
  }

  lemma {:induction false} EnrolSound(ip: InProgress, schema: Schema, op: Op)
    requires Sound(ip) && op.Enrol? && Enabled(ip, schema, op)
    ensures Sound(Perform(ip, schema, op))
  {
    var a := op.attr;
    var forward, reverse := CachedForward(ip, a), CachedReverse(ip, a);
    if !Skips(schema, op, forward, reverse) {
      RegisterWellFormed(ip.overlay, schema, a, op.fwd && !forward, op.rev && !reverse, op.rows);
    }
  }

  lemma {:induction false} EnrolFlatIff(ip: InProgress, schema: Schema, op: Op)
    requires Sound(ip) && op.Enrol? && Enabled(ip, schema, op)
    ensures Flat(Perform(ip, schema, op)) == PerformFlat(Flat(ip), schema, op) <==> !Resurrects(ip, schema, op)
  {
    var a := op.attr;
    var forward, reverse := CachedForward(ip, a), CachedReverse(ip, a);
    FlagsFlat(ip, a);
    if !Skips(schema, op, forward, reverse) {
      var attr, any := schema[a], op.rows != [];
      RegisterShape(ip.overlay, schema, a, op.fwd && !forward, op.rev && !reverse, op.rows);
      RegisterShape(Flat(ip), schema, a, op.fwd, op.rev, op.rows);
      var f, r := op.fwd || forward, op.rev || reverse;
      assert ip.overlay.forward + Just(op.fwd && !forward, a) == ip.overlay.forward + Just(op.fwd, a);
      assert ip.overlay.reverse + Just(op.rev && !reverse, a) == ip.overlay.reverse + Just(op.rev, a);
      RefilledFlatIff(ip.overlay.single, ip.inner.single, ip.unregF, SingleOp, a, op.rows, op.fwd,
                      any && f && !attr.multival);
      RefilledFlatIff(ip.overlay.multi, ip.inner.multi, ip.unregF, MultiOp, a, op.rows, op.fwd,
                      any && f && attr.multival);
      RefilledFlatIff(ip.overlay.uniq, ip.inner.uniq, ip.unregR, UniqOp, a, op.rows, op.rev, any && r && attr.unique);
      RefilledFlatIff(ip.overlay.nonUniq, ip.inner.nonUniq, ip.unregR, NonUniqOp, a, op.rows, op.rev,
                      any && r && !attr.unique);
    }
  }

  /** A registration that takes effect, with rows. */
  ghost predicate Refills(ip: InProgress, schema: Schema, op: Op) {
    && Sound(ip) && op.Enrol? && Enabled(ip, schema, op) && op.rows != []
    && !Skips(schema, op, CachedForward(ip, op.attr), CachedReverse(ip, op.attr))
  }

  lemma {:induction false} OverlayRefilled(ip: InProgress, schema: Schema, op: Op)
    requires Refills(ip, schema, op)
    ensures var a, attr, over := op.attr, schema[op.attr], Perform(ip, schema, op).overlay;
            var f, r := op.fwd || CachedForward(ip, a), op.rev || CachedReverse(ip, a);
            && over.forward == ip.overlay.forward + Just(op.fwd, a)
            && over.reverse == ip.overlay.reverse + Just(op.rev, a)
            && over.single == Refilled(ip.overlay.single, SingleOp, a, op.rows, f && !attr.multival)
            && over.multi == Refilled(ip.overlay.multi, MultiOp, a, op.rows, f && attr.multival)
            && over.uniq == Refilled(ip.overlay.uniq, UniqOp, a, op.rows, r && attr.unique)
            && over.nonUniq == Refilled(ip.overlay.nonUniq, NonUniqOp, a, op.rows, r && !attr.unique)
  {
    var a, forward, reverse := op.attr, CachedForward(ip, op.attr), CachedReverse(ip, op.attr);
    FlagsFlat(ip, a);
    RegisterShape(ip.overlay, schema, a, op.fwd && !forward, op.rev && !reverse, op.rows);
  }

  lemma {:induction false} FlatRefilled(ip: InProgress, schema: Schema, op: Op)
    requires Refills(ip, schema, op)
    ensures var a, attr, c, c' := op.attr, schema[op.attr], Flat(ip), PerformFlat(Flat(ip), schema, op);
            var f, r := op.fwd || CachedForward(ip, a), op.rev || CachedReverse(ip, a);
            && c'.forward == ip.overlay.forward + Just(op.fwd, a) && c'.reverse == ip.overlay.reverse + Just(op.rev, a)
            && c'.single == Refilled(c.single, SingleOp, a, op.rows, f && !attr.multival)
            && c'.multi == Refilled(c.multi, MultiOp, a, op.rows, f && attr.multival)
            && c'.uniq == Refilled(c.uniq, UniqOp, a, op.rows, r && attr.unique)
            && c'.nonUniq == Refilled(c.nonUniq, NonUniqOp, a, op.rows, r && !attr.unique)
  {
    FlagsFlat(ip, op.attr);
    RegisterShape(Flat(ip), schema, op.attr, op.fwd, op.rev, op.rows);
  }

  // ---------- every operation ----------

  lemma {:induction false} ForgetFlat(ip: InProgress, schema: Schema, a: int)
    requires Sound(ip)
    ensures Flat(Perform(ip, schema, Forget(a))) == Unregister(Flat(ip), a)
  {
    ForgetKind(ip.overlay.single, ip.inner.single, ip.unregF, a);
    ForgetKind(ip.overlay.multi, ip.inner.multi, ip.unregF, a);
    ForgetKind(ip.overlay.uniq, ip.inner.uniq, ip.unregR, a);
    ForgetKind(ip.overlay.nonUniq, ip.inner.nonUniq, ip.unregR, a);
  }

  lemma {:induction false} ForgetKind<K, V>(over: Kind<K, V>, inner: Kind<K, V>, gone: set<int>, a: int)
    ensures (inner - (gone + {a})) + (over - {a}) == (inner - gone) + over - {a}
  {
  }

  lemma {:induction false} ForgetAllFlat(ip: InProgress, schema: Schema)
    requires Sound(ip)
    ensures Flat(Perform(ip, schema, ForgetAll)) == EMPTY
  {
  }

  /** Every operation keeps the invariant, registering back included. */
  lemma {:induction false} PerformSound(ip: InProgress, schema: Schema, op: Op)
    requires Sound(ip) && Enabled(ip, schema, op)
    ensures Sound(Perform(ip, schema, op))
  {
    match op
    case Change(rs, ts) => ChangeFlat(ip, schema, rs, ts);
    case Forget(_) =>
    case ForgetAll =>
    case Enrol(_, _, _, _) => EnrolSound(ip, schema, op);
  }

  /** An operation on the layered cache is that operation on the flat cache it denotes if and only if
      it does not bring an unregistered entry of the inner cache back. */
  lemma {:induction false} PerformFlatIff(ip: InProgress, schema: Schema, op: Op)
    requires Sound(ip) && Enabled(ip, schema, op)
    ensures EnabledFlat(Flat(ip), schema, op)
    ensures Flat(Perform(ip, schema, op)) == PerformFlat(Flat(ip), schema, op) <==> !Resurrects(ip, schema, op)
  {
    match op
    case Change(rs, ts) => ChangeFlat(ip, schema, rs, ts);
    case Forget(a) => ForgetFlat(ip, schema, a);
    case ForgetAll => ForgetAllFlat(ip, schema);
    case Enrol(_, _, _, _) => EnrolFlatIff(ip, schema, op);
  }

  /** Which attributes are cached after an operation: a registration adds the directions asked for of a
      known attribute, an unregistration takes both away, and nothing else changes. */
  lemma {:induction false} CachedAfter(ip: InProgress, schema: Schema, op: Op, b: int)
    requires Sound(ip) && Enabled(ip, schema, op)
    ensures var ip' := Perform(ip, schema, op);
            match op
            case Change(_, _) => CachedForward(ip', b) == CachedForward(ip, b) &&
                CachedReverse(ip', b) == CachedReverse(ip, b)
            case Forget(a) =>
              && CachedForward(ip', b) == (CachedForward(ip, b) && b != a)
              && CachedReverse(ip', b) == (CachedReverse(ip, b) && b != a)
            case ForgetAll => !CachedForward(ip', b) && !CachedReverse(ip', b)
            case Enrol(a, f, r, _) =>
              && CachedForward(ip', b) == (CachedForward(ip, b) || (f && b == a && a in schema))
              && CachedReverse(ip', b) == (CachedReverse(ip, b) || (r && b == a && a in schema))
  {
    match op
    case Change(rs, ts) =>
      FoldKeepsFlags(ip.overlay, Some(ip.inner), schema, rs, false);
      FoldKeepsFlags(Fold(ip.overlay, Some(ip.inner), schema, rs, false), Some(ip.inner), schema, ts, true);
    case Forget(_) =>
    case ForgetAll =>
    case Enrol(a, f, r, rows) =>
      var forward, reverse := CachedForward(ip, a), CachedReverse(ip, a);
      if !Skips(schema, op, forward, reverse) {
        RegisterShape(ip.overlay, schema, a, f && !forward, r && !reverse, rows);
      }
  }
}
