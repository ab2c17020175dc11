/** The caches as objects: rows are taken from an iterator one attribute at a time, entries are
    opened (and copied) once per attribute, and the overlay is absorbed map by map. */
module CacheObjects {
  import opened Options
  import opened AttributeCache
  import opened CacheLayering
  import opened CacheCommit

  // ---------- opening the entries of an attribute ----------

  function OpenKind<K, V>(kind: Kind<K, V>, fallback: Kind<K, V>, a: int, on: bool): Kind<K, V> {
    if on then kind[a := Entry(kind, fallback, a)] else kind
  }

  function Open(c: Caches, fallback: Option<Caches>, schema: Schema, a: int): Caches
    requires a in schema
  {
    var f, r, attr := a in c.forward, a in c.reverse, schema[a];
    var ff, rf := ForwardFallback(fallback, a), ReverseFallback(fallback, a);
    c.(single := OpenKind(c.single, ff.single, a, f && !attr.multival),
       multi := OpenKind(c.multi, ff.multi, a, f && attr.multival),
       uniq := OpenKind(c.uniq, rf.uniq, a, r && attr.unique),
       nonUniq := OpenKind(c.nonUniq, rf.nonUniq, a, r && !attr.unique))
  }

  lemma {:induction false} StepOpened<K, V>(kind: Kind<K, V>, fallback: Kind<K, V>, op: RowOp<K, V>, row: Aev,
      add: bool)
    ensures StepKind(OpenKind(kind, fallback, row.a, true), map[], op, row, add) ==
            StepKind(kind, fallback, op, row, add)
  {
  }

  lemma {:induction false} OpenThenStep(c: Caches, fallback: Option<Caches>, schema: Schema, row: Aev, add: bool)
    requires row.a in schema
    ensures Step(Open(c, fallback, schema, row.a), None, schema, row, add) == Step(c, fallback, schema, row, add)
  {
    var ff, rf := ForwardFallback(fallback, row.a), ReverseFallback(fallback, row.a);
    StepOpened(c.single, ff.single, SingleOp, row, add);
    StepOpened(c.multi, ff.multi, MultiOp, row, add);
    StepOpened(c.uniq, rf.uniq, UniqOp, row, add);
    StepOpened(c.nonUniq, rf.nonUniq, NonUniqOp, row, add);
  }

  /** Once a row of an attribute is in, later rows of it copy nothing. */
  ghost predicate IsOpen(c: Caches, schema: Schema, a: int)
    requires a in schema
  {
    var f, r, attr := a in c.forward, a in c.reverse, schema[a];
    (f && !attr.multival ==> a in c.single) && (f && attr.multival ==> a in c.multi) &&
    (r && attr.unique ==> a in c.uniq) && (r && !attr.unique ==> a in c.nonUniq)
  }

  lemma {:induction false} FoldOpen(c: Caches, fallback: Option<Caches>, schema: Schema, a: int, rows: seq<Aev>,
      add: bool)
    requires Ready(c, schema, rows) && a in schema && IsOpen(c, schema, a)
    requires forall i | 0 <= i < |rows| :: rows[i].a == a
    ensures Fold(c, None, schema, rows, add) == Fold(c, fallback, schema, rows, add)
    decreases |rows|
  {
    if rows != [] {
      assert Step(c, None, schema, rows[0], add) == Step(c, fallback, schema, rows[0], add);
      FoldOpen(Step(c, None, schema, rows[0], add), fallback, schema, a, rows[1..], add);
    }
  }

  /** Opening the entries once and then folding the rows is folding them with the fallback. */
  lemma {:induction false} OpenOnce(c: Caches, fallback: Option<Caches>, schema: Schema, a: int, rows: seq<Aev>,
      add: bool)
    requires Ready(c, schema, rows) && a in schema && rows != []
    requires forall i | 0 <= i < |rows| :: rows[i].a == a
    ensures Fold(Open(c, fallback, schema, a), None, schema, rows, add) == Fold(c, fallback, schema, rows, add)
  {
    OpenThenStep(c, fallback, schema, rows[0], add);
    FoldOpen(Step(c, fallback, schema, rows[0], add), fallback, schema, a, rows[1..], add);
  }

  lemma {:induction false} FoldConcat(c: Caches, fallback: Option<Caches>, schema: Schema, xs: seq<Aev>,
      ys: seq<Aev>, add: bool)
    requires Ready(c, schema, xs) && Ready(c, schema, ys)
    ensures Ready(Fold(c, fallback, schema, xs, add), schema, ys)
    ensures Fold(Fold(c, fallback, schema, xs, add), fallback, schema, ys, add) ==
            Fold(c, fallback, schema, xs + ys, add)
    decreases |xs|
  {
    if xs == [] {
      assert xs + ys == ys;
    } else {
      assert (xs + ys)[1..] == xs[1..] + ys;
      FoldConcat(Step(c, fallback, schema, xs[0], add), fallback, schema, xs[1..], ys, add);
    }
  }

  lemma {:induction false} FoldNext(c: Caches, schema: Schema, rows: seq<Aev>, pos: nat, next: nat, add: bool)
    requires pos <= next < |rows| && rows[pos].a in schema && Cached(c, rows[pos].a)
    requires forall i | pos <= i <= next :: rows[i].a == rows[pos].a
    ensures Ready(c, schema, rows[pos..next]) && Ready(c, schema, rows[pos..next + 1])
    ensures Fold(c, None, schema, rows[pos..next + 1], add) ==
            Step(Fold(c, None, schema, rows[pos..next], add), None, schema, rows[next], add)
  {
    var one := [rows[next]];
    FoldConcat(c, None, schema, rows[pos..next], one, add);
    assert rows[pos..next] + one == rows[pos..next + 1];
    assert one[1..] == [];
  }

  class AttributeCaches {
    var forward: set<int>
    var reverse: set<int>
    var single: Kind<int, Option<Value>>
    var multi: Kind<int, seq<Value>>
    var uniq: Kind<Value, Option<int>>
    var nonUniq: Kind<Value, set<int>>

    ghost function Model(): Caches
      reads this
    {
      Caches(forward, reverse, single, multi, uniq, nonUniq)
    }

    constructor (c: Caches)
      ensures Model() == c
    {
      forward, reverse, single, multi, uniq, nonUniq := c.forward, c.reverse, c.single, c.multi, c.uniq, c.nonUniq;
    }

    method OpenEntries(fallback: Option<Caches>, schema: Schema, a: int)
      requires a in schema
      modifies this`single, this`multi, this`uniq, this`nonUniq
      ensures Model() == Open(old(Model()), fallback, schema, a)
    {
      var f, r, attr := a in forward, a in reverse, schema[a];
      var ff, rf := ForwardFallback(fallback, a), ReverseFallback(fallback, a);
      if f && attr.multival && a !in multi {
        multi := multi[a := Entry(multi, ff.multi, a)];
      }
      if f && !attr.multival && a !in single {
        single := single[a := Entry(single, ff.single, a)];
      }
      if r && attr.unique && a !in uniq {
        uniq := uniq[a := Entry(uniq, rf.uniq, a)];
      }
      if r && !attr.unique && a !in nonUniq {
        nonUniq := nonUniq[a := Entry(nonUniq, rf.nonUniq, a)];
      }
      OpenedAlready(old(single), ff.single, a);
      OpenedAlready(old(multi), ff.multi, a);
      OpenedAlready(old(uniq), rf.uniq, a);
      OpenedAlready(old(nonUniq), rf.nonUniq, a);
    }

    method ClearEntries(schema: Schema, a: int)
      requires a in schema
      modifies this`single, this`multi, this`uniq, this`nonUniq
      ensures Model() == Clear(old(Model()), schema, a)
    {
      var attr := schema[a];
      if a in forward {
        if attr.multival { multi := multi[a := map[]]; } else { single := single[a := map[]]; }
      }
      if a in reverse {
        if attr.unique { uniq := uniq[a := map[]]; } else { nonUniq := nonUniq[a := map[]]; }
      }
    }

    method TakeRow(schema: Schema, row: Aev, add: bool)
      requires row.a in schema && IsOpen(Model(), schema, row.a)
      modifies this`single, this`multi, this`uniq, this`nonUniq
      ensures Model() == Step(old(Model()), None, schema, row, add)
      ensures IsOpen(Model(), schema, row.a)
    {
      var a, attr := row.a, schema[row.a];
      if a in forward {
        if attr.multival {
          multi := multi[a := MultiOp(multi[a], row, add)];
        } else {
          single := single[a := SingleOp(single[a], row, add)];
        }
      }
      if a in reverse {
        if attr.unique {
          uniq := uniq[a := UniqOp(uniq[a], row, add)];
        } else {
          nonUniq := nonUniq[a := NonUniqOp(nonUniq[a], row, add)];
        }
      }
    }

    /** Takes rows from the iterator while they share an attribute. */
    method WithAevIter(schema: Schema, rows: seq<Aev>, pos: nat, add: bool) returns (next: nat)
      requires pos < |rows| && rows[pos].a in schema && Cached(Model(), rows[pos].a)
      requires IsOpen(Model(), schema, rows[pos].a)
      modifies this`single, this`multi, this`uniq, this`nonUniq
      ensures pos < next <= |rows| && forall i | pos <= i < next :: rows[i].a == rows[pos].a
      ensures next == |rows| || rows[next].a != rows[pos].a
      ensures Ready(old(Model()), schema, rows[pos..next])
      ensures Model() == Fold(old(Model()), None, schema, rows[pos..next], add)
    {
      next := pos;
      while next < |rows| && rows[next].a == rows[pos].a
        invariant pos <= next <= |rows| && forall i | pos <= i < next :: rows[i].a == rows[pos].a
        invariant IsOpen(Model(), schema, rows[pos].a) && forward == old(forward) && reverse == old(reverse)
        invariant Model() == Fold(old(Model()), None, schema, rows[pos..next], add)
      {
        FoldNext(old(Model()), schema, rows, pos, next, add);
        TakeRow(schema, rows[next], add);
        next := next + 1;
      }
    }

    /** Consumes the rows at `pos` that share its attribute; consumes none if the attribute is
        unknown. */
    method AccumulateEvs(fallback: Option<Caches>, schema: Schema, rows: seq<Aev>, pos: nat, add: bool, replacing: bool)
      returns (next: nat)
      requires pos < |rows| && (replacing ==> add)
      requires rows[pos].a in schema ==> Cached(Model(), rows[pos].a)
      modifies this`single, this`multi, this`uniq, this`nonUniq
      ensures next > pos <==> rows[pos].a in schema
      ensures next == pos ==> Model() == old(Model())
      ensures pos <= next <= |rows| && forall i | pos <= i < next :: rows[i].a == rows[pos].a
      ensures next > pos ==> next == |rows| || rows[next].a != rows[pos].a
      ensures Ready(old(Model()), schema, rows[pos..next])
      ensures next > pos && replacing ==>
                Model() == Fold(Clear(old(Model()), schema, rows[pos].a), None, schema, rows[pos..next], true)
      ensures next > pos && !replacing ==>
                Model() == Fold(old(Model()), fallback, schema, rows[pos..next], add)
    {
      next := pos;
      var a := rows[pos].a;
      if a in schema {
        OpenEntries(if replacing then None else fallback, schema, a);
        if replacing {
          ClearEntries(schema, a);
          ClearOpened(old(Model()), schema, a);
        }
        next := WithAevIter(schema, rows, pos, add);
        if !replacing {
          OpenOnce(old(Model()), fallback, schema, a, rows[pos..next], add);
        }
      }
    }

    /** The loop over attributes consumes every row and amounts to one fold over all of them. */
    method AccumulateIntoCache(fallback: Option<Caches>, schema: Schema, rows: seq<Aev>, add: bool)
      requires Ready(Model(), schema, rows)
      modifies this`single, this`multi, this`uniq, this`nonUniq
      ensures Model() == Fold(old(Model()), fallback, schema, rows, add)
    {
      var pos := 0;
      while pos < |rows|
        invariant 0 <= pos <= |rows|
        invariant forward == old(forward) && reverse == old(reverse)
        invariant Ready(old(Model()), schema, rows[..pos])
        invariant Model() == Fold(old(Model()), fallback, schema, rows[..pos], add)
      {
        ghost var before := Model();
        var next := AccumulateEvs(fallback, schema, rows, pos, add, false);
        FoldConcat(old(Model()), fallback, schema, rows[..pos], rows[pos..next], add);
        assert rows[..pos] + rows[pos..next] == rows[..next];
        pos := next;
      }
      assert rows[..pos] == rows;
    }

    method UpdateWithFallback(fallback: Option<Caches>, schema: Schema, retractions: seq<Aev>, assertions: seq<Aev>)
      requires Ready(Model(), schema, retractions) && Ready(Model(), schema, assertions)
      modifies this`single, this`multi, this`uniq, this`nonUniq
      ensures Model() == Update(old(Model()), fallback, schema, retractions, assertions)
    {
      AccumulateIntoCache(fallback, schema, retractions, false);
      AccumulateIntoCache(fallback, schema, assertions, true);
    }

    /** Caches an attribute in new directions and refills it from its rows in the store. */
    method RegisterAttribute(schema: Schema, a: int, fwd: bool, rev: bool, rows: seq<Aev>)
      requires a in schema && (fwd || rev) && forall i | 0 <= i < |rows| :: rows[i].a == a
      modifies this
      ensures Model() == Register(old(Model()), schema, a, fwd, rev, rows)
    {
      forward := forward + (if fwd then {a} else {});
      reverse := reverse + (if rev then {a} else {});
      if rows != [] {
        var next := AccumulateEvs(None, schema, rows, 0, true, true);
        assert rows[0..next] == rows;
      }
    }

    method UnregisterAttribute(a: int)
      modifies this
      ensures Model() == Unregister(old(Model()), a)
    {
      reverse, forward := reverse - {a}, forward - {a};
      single, multi, uniq, nonUniq := single - {a}, multi - {a}, uniq - {a}, nonUniq - {a};
    }

    method UnregisterAllAttributes()
      modifies this
      ensures Model() == EMPTY
    {
      reverse, forward := {}, {};
      single, multi, uniq, nonUniq := map[], map[], map[], map[];
    }

    method AbsorbAll(other: Caches)
      modifies this
      ensures Model() == Absorb(old(Model()), other)
    {
      forward, reverse := forward + other.forward, reverse + other.reverse;
      single := ExtendByAbsorbing(single, other.single, Tombstone);
      multi := ExtendByAbsorbing(multi, other.multi, NoValues);
      uniq := ExtendByAbsorbing(uniq, other.uniq, Tombstone);
      nonUniq := ExtendByAbsorbing(nonUniq, other.nonUniq, NoEntities);
    }
  }

  method Pick<T(==)>(s: set<T>) returns (x: T)
    requires s != {}
    ensures x in s
  {
    x :| x in s;
  }

  lemma {:induction false} OpenedAlready<K, V>(kind: Kind<K, V>, fallback: Kind<K, V>, a: int)
    ensures a in kind ==> OpenKind(kind, fallback, a, true) == kind
  {
  }

  lemma {:induction false} ClearOpened(c: Caches, schema: Schema, a: int)
    requires a in schema
    ensures Clear(Open(c, None, schema, a), schema, a) == Clear(c, schema, a)
  {
    var f, r, attr := a in c.forward, a in c.reverse, schema[a];
    ClearOpenedKind(c.single, a, f && !attr.multival);
    ClearOpenedKind(c.multi, a, f && attr.multival);
    ClearOpenedKind(c.uniq, a, r && attr.unique);
    ClearOpenedKind(c.nonUniq, a, r && !attr.unique);
  }

  lemma {:induction false} ClearOpenedKind<K, V>(kind: Kind<K, V>, a: int, on: bool)
    ensures ClearKind(OpenKind(kind, map[], a, on), a, on) == ClearKind(kind, a, on)
  {
    if on {
      assert kind[a := Entry(kind, map[], a)][a := map[]] == kind[a := map[]];
    }
  }

  /** Absorbs each attribute's map into ours, entry by entry; new attributes are moved over whole. */
  method ExtendByAbsorbing<A(==), K(==), V>(mine: map<A, map<K, V>>, other: map<A, map<K, V>>, dead: V -> bool)
    returns (r: map<A, map<K, V>>)
    ensures r == AbsorbKind(mine, other, dead)
  {
    r := mine;
    var todo := other.Keys;
    ghost var full := AbsorbKind(mine, other, dead);
    while todo != {}
      invariant todo <= other.Keys
      invariant forall a :: a in r <==> a in mine || (a in other && a !in todo)
      invariant forall a | a in r :: r[a] == if a in other && a !in todo then full[a] else mine[a]
    {
      var a :| a in todo;
      if a in r {
        var entry := AbsorbMap(r[a], other[a], dead);
        r := r[a := entry];
      } else {
        r := r[a := other[a]];
      }
      todo := todo - {a};
    }
  }

  method AbsorbMap<K(==), V>(mine: map<K, V>, other: map<K, V>, dead: V -> bool) returns (r: map<K, V>)
    ensures r == AbsorbEntry(mine, other, dead)
  {
    r := mine;
    var todo := other.Keys;
    while todo != {}
      invariant todo <= other.Keys
      invariant forall k :: k in r <==> if k in other && k !in todo then !dead(other[k]) else k in mine
      invariant forall k | k in r :: r[k] == if k in other && k !in todo then other[k] else mine[k]
    {
      var k :| k in todo;
      if dead(other[k]) {
        r := r - {k};
      } else {
        r := r[k := other[k]];
      }
      todo := todo - {k};
    }
  }

  class InProgressCache {
    const inner: Caches
    const overlay: AttributeCaches
    var unregF: set<int>
    var unregR: set<int>

    ghost function Model(): InProgress
      reads this, overlay
    {
      InProgress(inner, overlay.Model(), unregF, unregR)
    }

    constructor (c: Caches)
      ensures Model() == FromCache(c) && fresh(overlay)
    {
      inner := c;
      overlay := new AttributeCaches(EMPTY.(forward := c.forward, reverse := c.reverse));
      unregF, unregR := {}, {};
    }

    method Update(schema: Schema, retractions: seq<Aev>, assertions: seq<Aev>)
      requires Enabled(Model(), schema, Change(retractions, assertions))
      modifies overlay
      ensures Model() == Perform(old(Model()), schema, Change(retractions, assertions))
    {
      overlay.UpdateWithFallback(Some(inner), schema, retractions, assertions);
    }

    method Unregister(a: int, ghost schema: Schema)
      modifies this, overlay
      ensures Model() == Perform(old(Model()), schema, Forget(a))
    {
      overlay.UnregisterAttribute(a);
      unregF, unregR := unregF + {a}, unregR + {a};
    }

    method UnregisterAll(ghost schema: Schema)
      modifies this, overlay
      ensures Model() == Perform(old(Model()), schema, ForgetAll)
    {
      overlay.UnregisterAllAttributes();
      unregF, unregR := unregF + inner.forward, unregR + inner.reverse;
    }

    /** Registers an attribute in the directions asked for, unless it is unknown or they are all cached
        already. */
    method Register(schema: Schema, a: int, fwd: bool, rev: bool, rows: seq<Aev>) returns (ok: bool)
      requires Enabled(Model(), schema, Enrol(a, fwd, rev, rows))
      modifies this, overlay
      ensures ok <==> a in schema
      ensures Model() == Perform(old(Model()), schema, Enrol(a, fwd, rev, rows))
    {
      if a !in schema {
        return false;
      }
      var reverseDone := a !in unregR && (a in inner.reverse || a in overlay.reverse);
      var forwardDone := a !in unregF && (a in inner.forward || a in overlay.forward);
      if (fwd ==> forwardDone) && (rev ==> reverseDone) {
        return true;
      }
      if fwd {
        unregF := unregF - {a};
      }
      if rev {
        unregR := unregR - {a};
      }
      overlay.RegisterAttribute(schema, a, fwd && !forwardDone, rev && !reverseDone, rows);
      return true;
    }

    /** Writes the transaction's changes into a cache that nobody else may be reading. */
    method CommitTo(destination: AttributeCaches)
      requires destination != overlay
      modifies destination
      ensures destination.Model() == CommitInto(old(destination.Model()), Model())
    {
      if destination.forward == {} && destination.reverse == {} {
        destination.forward, destination.reverse := overlay.forward, overlay.reverse;
        destination.single, destination.multi := overlay.single, overlay.multi;
        destination.uniq, destination.nonUniq := overlay.uniq, overlay.nonUniq;
        return;
      }
      ghost var before := destination.Model();
      var todo: set<int> := unregF + unregR;
      ghost var done: set<int> := {};
      UnregisterNone(before);
      while todo != {}
        invariant todo + done == unregF + unregR && overlay.Model() == old(overlay.Model())
        invariant destination.Model() == UnregisterSet(before, done)
      {
        var a := Pick(todo);
        destination.UnregisterAttribute(a);
        UnregisterMore(before, done, a);
        todo, done := todo - {a}, done + {a};
      }
      assert done == unregF + unregR;
      destination.AbsorbAll(Caches(overlay.forward, overlay.reverse, overlay.single, overlay.multi, overlay.uniq,
          overlay.nonUniq));
    }
  }

  lemma {:induction false} UnregisterNone(c: Caches)
    ensures UnregisterSet(c, {}) == c
  {
  }

  lemma {:induction false} UnregisterMore(c: Caches, done: set<int>, a: int)
    ensures Unregister(UnregisterSet(c, done), a) == UnregisterSet(c, done + {a})
  {
  }
}
