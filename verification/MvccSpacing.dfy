/** How dense the row index is: the first indexed row has a handle, then every ten-thousandth, and the
    last one. */
module MvccSpacing {
  import opened Bytes
  import opened RangeCodec
  import opened Mvcc

  /** The first handle stands for one row and each further one for ten thousand. */
  ghost predicate Spaced(handles: Handles, n: nat)
    requires n <= |KeyOrder(handles)|
  {
    forall i | 0 <= i < n :: handles[KeyOrder(handles)[i]].size == if i == 0 then 1 else 10000
  }

  ghost predicate SpacedIndex(x: Index, rows: seq<Key>) {
    Spaced(x.handles, |KeyOrder(x.handles)|) && (rows == [] <==> |KeyOrder(x.handles)| == 0)
  }

  lemma {:induction false} SpacingAppends(handles: Handles, k: Key, h: Handle, n: nat)
    requires forall x | x in handles :: Less(x, k)
    requires n == |KeyOrder(handles)| && Spaced(handles, n)
    ensures KeyOrder(handles[k := h]) == KeyOrder(handles) + [k] && Spaced(handles[k := h], n)
    ensures h.size == (if n == 0 then 1 else 10000) ==> Spaced(handles[k := h], n + 1)
  {
    KeyAppends(handles, k, h);
    LessIrreflexive(k);
    var keys := KeyOrder(handles);
    forall i | 0 <= i < n ensures handles[k := h][keys[i]] == handles[keys[i]] {
      assert keys[i] in keys;
    }
  }

  lemma {:induction false} IndexRowSpaced(x: Index, rows: seq<Key>, row: Key)
    requires Indexes(x, rows) && SpacedIndex(x, rows) && forall r | r in rows :: Less(r, row)
    ensures SpacedIndex(IndexRow(x, row), rows + [row])
  {
    if x.current.offset == 0 || x.current.size + 1 >= 10000 {
      MarkedRowSpaced(x, rows, row);
    }
  }

  lemma {:induction false} MarkedRowSpaced(x: Index, rows: seq<Key>, row: Key)
    requires Indexes(x, rows) && SpacedIndex(x, rows) && forall r | r in rows :: Less(r, row)
    requires x.current.offset == 0 || x.current.size + 1 >= 10000
    ensures SpacedIndex(Index(Handle(0, x.current.offset + 1),
                              x.handles[row := Handle(x.current.size + 1, x.current.offset + 1)]), rows + [row])
  {
    var h, n := Handle(x.current.size + 1, x.current.offset + 1), |KeyOrder(x.handles)|;
    assert h.size == if n == 0 then 1 else 10000;
    SpacingAppends(x.handles, row, h, n);
  }

  lemma {:induction false} TallySpaced(vs: seq<Version>)
    requires Ascending(vs)
    ensures SpacedIndex(Tallied(vs).index, Indexed(vs))
    decreases |vs|
  {
    if vs == [] {
      NoHandles();
    } else {
      var n := |vs| - 1;
      TallySpaced(vs[..n]);
      TallyIndexes(vs[..n]);
      TallyRuns(vs);
      FirstVersion(vs);
      if vs[n].row !in RowSet(vs[..n]) {
        IndexedBefore(vs[..n], vs[n].row);
        IndexRowSpaced(Tallied(vs[..n]).index, Indexed(vs[..n]), vs[n].row);
      }
    }
  }

  /** Where the finished index of a stream has its handles: in key order the i-th but the last is at the
      indexed row number 10000 * i, and the last is at the last indexed row, at most as far on. */
  lemma {:induction false} FinishedSpacing(es: seq<Entry>)
    requires Ascending(Versions(es))
    ensures var handles, rows := Finished(Feed(es).tally).handles, Indexed(Versions(es));
            var keys := KeyOrder(handles);
            && (rows == [] <==> keys == [])
            && (forall i | 0 <= i < |keys| - 1 :: handles[keys[i]].offset == 1 + 10000 * i)
            && (keys != [] ==> var last := handles[keys[|keys| - 1]].offset;
                               last == |rows| && 10000 * (|keys| - 2) + 1 < last <= 10000 * (|keys| - 1) + 1)
  {
    var vs := Versions(es);
    FeedTally(es);
    FinishKeeps(vs);
    FinishSpaced(vs);
    var handles := Finished(Tallied(vs)).handles;
    var keys := KeyOrder(handles);
    if keys != [] {
      forall i | 0 <= i < |keys| - 1 ensures handles[keys[i]].offset == 1 + 10000 * i {
        OffsetAt(handles, i);
      }
      assert Steps(handles, |keys| - 1);
    }
  }

  lemma {:induction false} OffsetAt(handles: Handles, i: nat)
    requires Telescopes(handles) && i + 1 < |KeyOrder(handles)| && Spaced(handles, |KeyOrder(handles)| - 1)
    ensures handles[KeyOrder(handles)[i]].offset == 1 + 10000 * i
  {
    assert Steps(handles, i);
    if i > 0 {
      OffsetAt(handles, i - 1);
    }
  }

  lemma {:induction false} FinishSpaced(vs: seq<Version>)
    requires Ascending(vs)
    ensures var handles := Finished(Tallied(vs)).handles;
            var n := |KeyOrder(handles)|;
            && (Indexed(vs) == [] <==> n == 0) && (n > 0 ==> Spaced(handles, n - 1))
            && (n == 1 ==> handles[KeyOrder(handles)[0]].size == 1)
  {
    var x, rows, last := Tallied(vs).index, Indexed(vs), Tallied(vs).run.lastRow;
    TallySpaced(vs);
    TallyIndexes(vs);
    if x.current.size > 0 {
      TallyRuns(vs);
      LastRow(vs);
      IndexedRows(vs);
      HandlesBeforeLast(x, rows, last);
      SpacingAppends(x.handles, last, x.current, |KeyOrder(x.handles)|);
    }
  }
}
