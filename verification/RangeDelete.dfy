/** Deleting every key of a range: through batches of single deletions written while a snapshot is
    being iterated, or through one range deletion, with the same final contents. */
module RangeDelete {
  import opened Bytes
  import opened RangeCodec

  const MAX_DELETE_BATCH_COUNT := 512
  const DAGGER := "dagger"

  type Contents = map<Key, Key>
  type Families = map<string, Contents>

  datatype Op = Delete(family: string, key: Key) | DeleteRange(family: string, start: Key, end: Key)

  predicate Within(k: Key, start: Key, end: Key) {
    LessEq(start, k) && Less(k, end)
  }

  function Inside(m: Contents, start: Key, end: Key): set<Key> {
    set k | k in m && Within(k, start, end)
  }

  function Outside(m: Contents, start: Key, end: Key): Contents {
    m - Inside(m, start, end)
  }

  // ---------- write batches ----------

  predicate Known(data: Families, ops: seq<Op>) {
    forall op | op in ops :: op.family in data
  }

  function ApplyOp(data: Families, op: Op): Families
    requires op.family in data
  {
    match op
    case Delete(f, k) => data[f := data[f] - {k}]
    case DeleteRange(f, start, end) => data[f := Outside(data[f], start, end)]
  }

  function Apply(data: Families, ops: seq<Op>): (r: Families)
    requires Known(data, ops)
    ensures r.Keys == data.Keys
  {
    if ops == [] then data else ApplyOp(Apply(data, ops[..|ops| - 1]), ops[|ops| - 1])
  }

  /** The batch deletes exactly these keys, each once, from one family. */
  ghost predicate Deletes(wb: seq<Op>, f: string, keys: set<Key>) {
    if wb == [] then keys == {}
    else
      var n := |wb| - 1;
      wb[n].Delete? && wb[n].family == f && wb[n].key in keys && Deletes(wb[..n], f, keys - {wb[n].key})
  }

  lemma {:induction false} DeletesKnown(wb: seq<Op>, f: string, keys: set<Key>, data: Families)
    requires Deletes(wb, f, keys) && f in data
    ensures Known(data, wb)
    decreases |wb|
  {
    if wb != [] {
      var n := |wb| - 1;
      DeletesKnown(wb[..n], f, keys - {wb[n].key}, data);
      assert wb == wb[..n] + [wb[n]];
    }
  }

  lemma {:induction false} ApplyDeletes(data: Families, wb: seq<Op>, f: string, keys: set<Key>)
    requires Deletes(wb, f, keys) && f in data && Known(data, wb)
    ensures Apply(data, wb) == data[f := data[f] - keys] && |wb| == |keys|
    decreases |wb|
  {
    if wb != [] {
      var n := |wb| - 1;
      var rest := keys - {wb[n].key};
      ApplyDeletes(data, wb[..n], f, rest);
      assert keys == rest + {wb[n].key};
      assert data[f] - rest - {wb[n].key} == data[f] - keys;
    } else {
      assert data[f] - keys == data[f];
    }
  }

  // ---------- iteration ----------

  lemma {:induction false} LeastExists(s: set<Key>)
    requires s != {}
    ensures exists k :: k in s && forall j | j in s :: LessEq(k, j)
  {
    InOrderLists(s);
    var keys := InOrder(s);
    var x :| x in s;
    assert x in keys;
    assert keys[0] in s;
    forall j | j in s ensures LessEq(keys[0], j) {
      assert j in keys;
    }
  }

  function Least(s: set<Key>): (k: Key)
    requires s != {}
    ensures k in s && forall j | j in s :: LessEq(k, j)
  {
    LeastExists(s);
    Bytes.Order();
    var k :| k in s && forall j | j in s :: LessEq(k, j);
    k
  }

  // An iterator over a snapshot, standing at the least of the keys still ahead.
  datatype Cursor = Cursor(ahead: set<Key>) {
    predicate Valid() {
      ahead != {}
    }

    function Key(): Key
      requires Valid()
    {
      Least(ahead)
    }

    function Next(): Cursor
      requires Valid()
    {
      Cursor(ahead - {Least(ahead)})
    }
  }

  /** The first key of the snapshot at or after the target. */
  function Seek(snapshot: set<Key>, target: Key): Cursor {
    Cursor(set k | k in snapshot && LessEq(target, k))
  }

  // ---------- the engine ----------

  function Total(batches: seq<seq<Op>>): nat {
    if batches == [] then 0 else Total(batches[..|batches| - 1]) + |batches[|batches| - 1]|
  }

  ghost predicate Bounded(batches: seq<seq<Op>>) {
    forall i | 0 <= i < |batches| :: 0 < |batches[i]| <= 512
  }

  ghost predicate Gains(before: seq<seq<Op>>, after: seq<seq<Op>>) {
    before <= after && Bounded(after[|before|..])
  }

  lemma {:induction false} GainsMore(a: seq<seq<Op>>, b: seq<seq<Op>>, c: seq<seq<Op>>)
    requires Gains(a, b) && Gains(b, c)
    ensures Gains(a, c)
  {
    assert c[|a|..] == b[|a|..] + c[|b|..];
  }

  /** Every batch is full. */
  ghost predicate Full(batches: seq<seq<Op>>) {
    forall i | 0 <= i < |batches| :: |batches[i]| == 512
  }

  /** Every batch is full but perhaps the last, which is not empty. */
  ghost predicate Filled(batches: seq<seq<Op>>) {
    batches != [] ==> var n := |batches| - 1; Full(batches[..n]) && 0 < |batches[n]| <= 512
  }

  class Engine {
    const names: seq<string>
    var data: Families
    var written: seq<seq<Op>>

    ghost predicate Valid()
      reads this
    {
      forall f | f in names :: f in data
    }

    method Write(wb: seq<Op>)
      requires Known(data, wb)
      modifies this
      ensures data == Apply(old(data), wb) && written == old(written) + [wb]
    {
      data, written := Apply(data, wb), written + [wb];
    }

    /** Deletes the keys of the range one by one, writing whenever a batch is full; what is left of
        the last batch is returned unwritten. */
    method DeleteOneByOne(f: string, start: Key, end: Key) returns (wb: seq<Op>, ghost gone: set<Key>)
      requires f in data
      modifies this
      ensures Underway(old(data), data, old(written), written, f, gone, Inside(old(data)[f], start, end), wb)
    {
      wb, gone := [], {};
      var it := Seek(Inside(data[f], start, end), start);
      ghost var all, done := Inside(data[f], start, end), {};
      assert it.ahead == all;
      Begins(data, written, f);
      while it.Valid()
        invariant Underway(old(data), data, old(written), written, f, gone, done, wb)
        invariant done + it.ahead == all && done !! it.ahead
        decreases it.ahead
      {
        wb, gone := DeleteKey(wb, f, it.Key(), old(data), old(written), gone, done);
        done := done + {it.Key()};
        it := it.Next();
      }
      assert done == all;
    }

    method DeleteKey(wb: seq<Op>, f: string, k: Key, ghost before: Families, ghost log: seq<seq<Op>>,
        ghost gone: set<Key>, ghost done: set<Key>)
      returns (wb': seq<Op>, ghost gone': set<Key>)
      requires Underway(before, data, log, written, f, gone, done, wb) && k !in done
      modifies this
      ensures Underway(before, data, log, written, f, gone', done + {k}, wb')
    {
      DeletesOneMore(wb, f, done - gone, k);
      assert done - gone + {k} == done + {k} - gone;
      wb', gone' := wb + [Delete(f, k)], gone;
      if |wb'| >= MAX_DELETE_BATCH_COUNT {
        WriteDeletes(wb', f, before, log, gone, done + {k});
        wb', gone' := [], done + {k};
        assert done + {k} - gone' == {};
      }
    }

    /** Writes the batch that deletes what is done but not gone. */
    method WriteDeletes(wb: seq<Op>, f: string, ghost before: Families, ghost log: seq<seq<Op>>,
        ghost gone: set<Key>, ghost done: set<Key>)
      requires 0 < |wb| <= MAX_DELETE_BATCH_COUNT && gone <= done && Deletes(wb, f, done - gone)
      requires f in before && data == before[f := before[f] - gone]
      requires Journal(log, written, |gone|) && Full(written[|log|..])
      modifies this
      ensures data == before[f := before[f] - done] && Journal(log, written, |done|)
      ensures |wb| == 512 ==> Full(written[|log|..])
    {
      DeletesKnown(wb, f, done - gone, data);
      BatchDeletes(before, f, gone, done, wb);
      JournalGrows(log, written, |gone|, wb);
      Write(wb);
    }

    /** One family loses exactly its keys in the range; without range deletion every batch is bounded
        and each key is deleted once. */
    method DeleteInFamily(f: string, start: Key, end: Key, useRange: bool)
      requires f in data
      modifies this
      ensures data == old(data)[f := Outside(old(data)[f], start, end)]
      ensures if useRange && f != "dagger" then written == old(written) + [[DeleteRange(f, start, end)]]
              else Journal(old(written), written, |Inside(old(data)[f], start, end)|)
      ensures Gains(old(written), written)
    {
      if useRange && f != DAGGER {
        var wb := [DeleteRange(f, start, end)];
        assert wb[..0] == [];
        Write(wb);
      } else {
        var wb, gone := DeleteOneByOne(f, start, end);
        if |wb| > 0 {
          WriteDeletes(wb, f, old(data), old(written), gone, Inside(old(data)[f], start, end));
        } else {
          AllGone(gone, Inside(old(data)[f], start, end));
        }
      }
    }

    /** Every family loses exactly its keys in [start, end), and nothing else changes, whichever way
        the deletion is done. */
    method DeleteAll(start: Key, end: Key, useRange: bool)
      requires Valid()
      modifies this
      ensures data.Keys == old(data).Keys
      ensures forall f | f in data ::
                if f in names then LosesRange(old(data)[f], data[f], start, end) else data[f] == old(data)[f]
      ensures !Less(start, end) ==> data == old(data) && written == old(written)
      ensures Gains(old(written), written)
    {
      forall m: Contents ensures LosesRange(m, Outside(m, start, end), start, end) {
        OutsideLoses(m, start, end);
      }
      if !Less(start, end) {
        EmptyRange(start, end);
        assert forall f | f in data :: Outside(data[f], start, end) == data[f];
        return;
      }
      var i := 0;
      while i < |names|
        invariant 0 <= i <= |names|
        invariant data.Keys == old(data).Keys
        invariant Gains(old(written), written)
        invariant forall f | f in data ::
                  data[f] == if f in names[..i] then Outside(old(data)[f], start, end) else old(data)[f]
      {
        ghost var log := written;
        DeleteInFamily(names[i], start, end, useRange);
        GainsMore(old(written), log, written);
        assert names[..i + 1] == names[..i] + [names[i]];
        OutsideTwice(old(data)[names[i]], start, end);
        i := i + 1;
      }
      assert names[..i] == names;
    }
  }

  /** What is left are the entries before the start and those at or after the end. */
  ghost predicate LosesRange(before: Contents, after: Contents, start: Key, end: Key) {
    && (forall k :: k in after <==> k in before && (Less(k, start) || LessEq(end, k)))
    && forall k | k in after && k in before :: after[k] == before[k]
  }

  lemma {:induction false} OutsideLoses(m: Contents, start: Key, end: Key)
    ensures LosesRange(m, Outside(m, start, end), start, end)
  {
    Bytes.Order();
    forall k ensures !Within(k, start, end) <==> Less(k, start) || LessEq(end, k) {
    }
  }

  /** The log gained batches, filled one after another, that delete `count` keys in all. */
  ghost predicate Journal(before: seq<seq<Op>>, after: seq<seq<Op>>, count: nat) {
    before <= after && Filled(after[|before|..]) && Total(after[|before|..]) == count
  }

  /** Of the keys done, those gone have left the family and the batch holds deletions of the others. */
  ghost predicate Underway(before: Families, data: Families, log: seq<seq<Op>>, written: seq<seq<Op>>,
                           f: string, gone: set<Key>, done: set<Key>, wb: seq<Op>)
  {
    && f in before && data == before[f := before[f] - gone]
    && gone <= done && Deletes(wb, f, done - gone) && |wb| < MAX_DELETE_BATCH_COUNT
    && Journal(log, written, |gone|) && Full(written[|log|..])
  }

  lemma {:induction false} BatchDeletes(before: Families, f: string, gone: set<Key>, done: set<Key>, wb: seq<Op>)
    requires f in before && gone <= done && Deletes(wb, f, done - gone) && Known(before, wb)
    ensures Apply(before[f := before[f] - gone], wb) == before[f := before[f] - done]
    ensures |gone| + |wb| == |done|
  {
    var keys := done - gone;
    ApplyDeletes(before[f := before[f] - gone], wb, f, keys);
    assert gone + keys == done;
    assert before[f] - gone - keys == before[f] - done;
  }

  lemma {:induction false} AllGone(gone: set<Key>, done: set<Key>)
    requires gone <= done && done - gone == {}
    ensures gone == done
  {
    forall k | k in done ensures k in gone {
      assert k !in done - gone;
    }
  }

  lemma {:induction false} Begins(data: Families, written: seq<seq<Op>>, f: string)
    requires f in data
    ensures Underway(data, data, written, written, f, {}, {}, [])
  {
    assert data[f] - {} == data[f];
    assert data[f := data[f]] == data;
  }

  lemma {:induction false} FilledByOne(gained: seq<seq<Op>>, wb: seq<Op>)
    requires Full(gained) && 0 < |wb| <= 512
    ensures Filled(gained + [wb]) && Total(gained + [wb]) == Total(gained) + |wb|
    ensures |wb| == 512 ==> Full(gained + [wb])
  {
    var all, n := gained + [wb], |gained|;
    assert all[..n] == gained && all[n] == wb;
  }

  lemma {:induction false} JournalGrows(before: seq<seq<Op>>, after: seq<seq<Op>>, count: nat, wb: seq<Op>)
    requires Journal(before, after, count) && Full(after[|before|..]) && 0 < |wb| <= MAX_DELETE_BATCH_COUNT
    ensures Journal(before, after + [wb], count + |wb|)
    ensures |wb| == 512 ==> Full((after + [wb])[|before|..])
  {
    FilledByOne(after[|before|..], wb);
    assert (after + [wb])[|before|..] == after[|before|..] + [wb];
  }

  lemma {:induction false} DeletesOneMore(wb: seq<Op>, f: string, keys: set<Key>, k: Key)
    requires Deletes(wb, f, keys) && k !in keys
    ensures Deletes(wb + [Delete(f, k)], f, keys + {k})
  {
  }

  lemma {:induction false} EmptyRange(start: Key, end: Key)
    requires !Less(start, end)
    ensures forall m :: Outside(m, start, end) == m
  {
    Bytes.Order();
    forall m ensures Outside(m, start, end) == m {
      assert Inside(m, start, end) == {};
    }
  }

  /** A family listed twice loses nothing more the second time. */
  lemma {:induction false} OutsideTwice(m: Contents, start: Key, end: Key)
    ensures Outside(Outside(m, start, end), start, end) == Outside(m, start, end)
  {
  }

  /** Both ways agree: deleting the keys found inside is deleting the range. */
  lemma {:induction false} SameContents(data: Families, f: string, start: Key, end: Key, wb: seq<Op>)
    requires f in data && Deletes(wb, f, Inside(data[f], start, end))
    ensures Known(data, wb) && Apply(data, wb) == Apply(data, [DeleteRange(f, start, end)])
  {
    var range := [DeleteRange(f, start, end)];
    assert range[..0] == [];
    DeletesKnown(wb, f, Inside(data[f], start, end), data);
    ApplyDeletes(data, wb, f, Inside(data[f], start, end));
  }
}
