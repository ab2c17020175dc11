/** Choosing keys that split, halve or divide a range evenly, from the points of many files. */
module RangeSplit {
  import opened Options
  import opened Bytes
  import opened Sorting
  import opened RangeIndex
  import opened Arithmetic

  ghost predicate WellFormed(files: seq<seq<Point>>) {
    forall i | 0 <= i < |files| :: AscendingPoints(files[i]) && Monotone(files[i])
  }

  ghost function KeysOf(points: seq<Point>): seq<Key> {
    seq(|points|, i requires 0 <= i < |points| => points[i].key)
  }

  /** The keys strictly inside the range, file after file. */
  ghost function InsideKeys(files: seq<seq<Point>>, start: Key, end: Key): seq<Key> {
    if files == [] then []
    else
      var n := |files| - 1;
      InsideKeys(files[..n], start, end) + KeysOf(StrictlyInside(files[n], start, end))
  }

  ghost function TotalSize(files: seq<seq<Point>>, start: Key, end: Key): int {
    if files == [] then 0
    else
      var n := |files| - 1;
      TotalSize(files[..n], start, end) + Floor(files[n], end).size - Floor(files[n], start).size
  }

  lemma {:induction false} InsideIsInside(points: seq<Point>, start: Key, end: Key)
    ensures forall p | p in StrictlyInside(points, start, end) :: Less(start, p.key) && Less(p.key, end)
    decreases |points|
  {
    if points != [] {
      InsideIsInside(points[1..], start, end);
    }
  }

  /** Every candidate key lies strictly inside the range. */
  lemma {:induction false} InsideKeysInside(files: seq<seq<Point>>, start: Key, end: Key)
    ensures forall k | k in InsideKeys(files, start, end) :: Less(start, k) && Less(k, end)
    decreases |files|
  {
    if files != [] {
      var n := |files| - 1;
      InsideKeysInside(files[..n], start, end);
      var points := StrictlyInside(files[n], start, end);
      InsideIsInside(files[n], start, end);
      forall k | k in KeysOf(points) ensures Less(start, k) && Less(k, end) {
        var i :| 0 <= i < |points| && points[i].key == k;
        assert points[i] in points;
      }
    }
  }

  method TakeKeys(points: seq<Point>) returns (keys: seq<Key>)
    ensures keys == KeysOf(points)
  {
    keys := seq(|points|, i requires 0 <= i < |points| => points[i].key);
  }

  /** Collects the candidate keys and the estimated size of the range. */
  method Gather(files: seq<seq<Point>>, start: Key, end: Key) returns (keys: seq<Key>, total: nat)
    requires WellFormed(files) && LessEq(start, end)
    ensures keys == InsideKeys(files, start, end) && total == TotalSize(files, start, end)
  {
    keys, total := [], 0;
    var i := 0;
    while i < |files|
      invariant 0 <= i <= |files|
      invariant keys == InsideKeys(files[..i], start, end) && total == TotalSize(files[..i], start, end)
    {
      assert files[..i + 1][..i] == files[..i];
      var size := ApproximateDistance(files[i], Size, start, end);
      var inside := TakeExcludedRange(files[i], start, end);
      var more := TakeKeys(inside);
      keys, total := keys + more, total + size;
      i := i + 1;
    }
    assert files[..i] == files;
  }

  // ---------- split keys ----------

  /** `k` is the last of the i-th run of n keys. */
  ghost predicate ClosesRun(keys: seq<Key>, n: nat, i: nat, k: Key) {
    0 <= (i + 1) * n - 1 < |keys| && k == keys[(i + 1) * n - 1]
  }

  /** Every n-th key, the first at position n - 1. */
  method EveryNth(keys: seq<Key>, n: nat) returns (r: seq<Key>)
    requires n > 0
    ensures |r| == |keys| / n
    ensures forall i | 0 <= i < |r| :: ClosesRun(keys, n, i, r[i])
  {
    r := [];
    var at := n - 1;
    while at < |keys|
      invariant at == |r| * n + n - 1
      invariant |r| * n <= |keys|
      invariant forall i | 0 <= i < |r| :: ClosesRun(keys, n, i, r[i])
    {
      assert (|r| + 1) * n == |r| * n + n;
      assert ClosesRun(keys, n, |r|, keys[at]);
      r := r + [keys[at]];
      at := at + n;
    }
    DivUnique(|r|, |keys|, n);
  }

  /** The least number of candidates that reach the split size at the average distance. */
  ghost predicate RunLength(n: int, len: nat, total: int, splitSize: nat) {
    n > 0 && (n - 1) * total < splitSize * len <= n * total
  }

  /** The split size and the candidates after the last whole run, at the average distance rounded down. */
  ghost function LastPart(len: nat, n: nat, total: int, splitSize: nat): int
    requires len > 0 && n > 0
  {
    splitSize + (len - len / n * n) * (total / len)
  }

  /** The split keys of sorted candidates: each closes a run of n, and all runs are closed but those past
      the limit, and the last if what it would leave falls short of the maximum size. */
  ghost predicate Splits(keys: seq<Key>, total: int, splitSize: nat, maxSize: nat, limit: nat, n: nat, r: seq<Key>)
    requires total > 0 && keys != []
  {
    && RunLength(n, |keys|, total, splitSize)
    && (forall i | 0 <= i < |r| :: ClosesRun(keys, n, i, r[i]))
    && var q, left := |keys| / n, LastPart(|keys|, n, total, splitSize);
       if q > limit then |r| == limit
       else if q > 0 && left < maxSize then |r| == q - 1
       else |r| == q
  }

  /** Picks the split keys of candidates already in order. */
  method PickSplits(keys: seq<Key>, total: nat, splitSize: nat, maxSize: nat, limit: nat) returns (split: seq<Key>)
    requires total > 0 && keys != [] && splitSize > 0
    ensures exists n :: Splits(keys, total, splitSize, maxSize, limit, n, split)
    ensures forall k | k in split :: k in keys
  {
    var len := |keys|;
    MulPositive(splitSize, len);
    CeilDivBounds(splitSize * len, total);
    var n := CeilDiv(splitSize * len, total);
    split := EveryNth(keys, n);
    if |split| > limit {
      split := split[..limit];
    } else if (len % n) * (total / len) + splitSize < maxSize && |split| > 0 {
      split := split[..|split| - 1];
    }
    assert len % n == len - len / n * n;
    assert n * total < splitSize * len + total && (n - 1) * total == n * total - total;
    assert Splits(keys, total, splitSize, maxSize, limit, n, split);
    forall k | k in split ensures k in keys {
      var i :| 0 <= i < |split| && split[i] == k;
      assert ClosesRun(keys, n, i, split[i]);
    }
  }

  /** At most `limit` split keys, all strictly inside the range, each the last of a further n
      candidates in key order, where n is the split size over the average distance, rounded up. */
  method SplitKeys(files: seq<seq<Point>>, start: Key, end: Key, splitSize: nat, maxSize: nat, limit: nat)
    returns (r: Option<seq<Key>>)
    requires WellFormed(files) && LessEq(start, end)
    ensures var keys, total := InsideKeys(files, start, end), TotalSize(files, start, end);
            && (r.None? <==> |keys| != 1 && (keys == [] || total == 0 || splitSize == 0))
            && (|keys| == 1 ==> r == Some([]))
            && (r.Some? && |keys| > 1 ==>
                  && total > 0
                  && Sort(keys, LessEq) != []
                  && |r.value| <= limit
                  && exists n :: Splits(Sort(keys, LessEq), total, splitSize, maxSize, limit, n, r.value))
    ensures r.Some? ==> forall k | k in r.value :: Less(start, k) && Less(k, end)
  {
    var keys, total := Gather(files, start, end);
    if |keys| == 1 {
      return Some([]);
    }
    if keys == [] || total == 0 || splitSize == 0 {
      return None;
    }
    var sorted := Sort(keys, LessEq);
    SortKeepsElements(keys, LessEq);
    var split := PickSplits(sorted, total, splitSize, maxSize, limit);
    InsideKeysInside(files, start, end);
    forall k | k in split ensures Less(start, k) && Less(k, end) {
      assert k in multiset(sorted);
      assert k in keys;
    }
    r := Some(split);
  }

  // ---------- the middle key ----------

  /** The left of the two middle candidates, in key order. */
  method MiddleKey(files: seq<seq<Point>>, start: Key, end: Key) returns (r: Option<Key>)
    requires WellFormed(files) && LessEq(start, end)
    ensures r.None? <==> InsideKeys(files, start, end) == []
    ensures r.Some? ==>
              var keys := Sort(InsideKeys(files, start, end), LessEq);
              exists m :: 0 <= m < |keys| && r.value == keys[m] && m <= |keys| - 1 - m <= m + 1
  {
    var keys, total := Gather(files, start, end);
    if keys == [] {
      return None;
    }
    SortKeepsElements(keys, LessEq);
    keys := Sort(keys, LessEq);
    var m := (|keys| - 1) / 2;
    r := Some(keys[m]);
  }

  // ---------- dividing ----------

  function Dedup(keys: seq<Key>): seq<Key> {
    if |keys| < 2 then keys
    else if keys[|keys| - 2] == keys[|keys| - 1] then Dedup(keys[..|keys| - 1])
    else Dedup(keys[..|keys| - 1]) + [keys[|keys| - 1]]
  }

  ghost predicate StrictlyAscending(keys: seq<Key>) {
    forall i, j | 0 <= i < j < |keys| :: Less(keys[i], keys[j])
  }

  /** Removing repeats from a sorted list leaves its members, each once, in order. */
  lemma {:induction false} DedupAscends(keys: seq<Key>)
    requires SortedBy(keys, LessEq)
    ensures StrictlyAscending(Dedup(keys))
    ensures forall k :: k in Dedup(keys) <==> k in keys
    ensures keys != [] ==> Dedup(keys) != [] && Dedup(keys)[|Dedup(keys)| - 1] == keys[|keys| - 1]
    decreases |keys|
  {
    Bytes.Order();
    if |keys| >= 2 {
      var n := |keys| - 1;
      DedupAscends(keys[..n]);
      assert keys == keys[..n] + [keys[n]];
      assert LessEq(keys[n - 1], keys[n]);
    }
  }

  const SAMPLE := 100
  const SELECTION_LIMIT := 20000
  const SELECTION_TARGET := 10000

  /** One key in a hundred, counting across files. */
  ghost function Sampled(keys: seq<Key>): seq<Key> {
    seq(|keys| / 100, i requires 0 <= i < |keys| / 100 => keys[(i + 1) * 100 - 1])
  }

  /** Goes on counting and sampling through one more file. */
  method SampleFile(points: seq<Point>, ghost before: seq<Key>, found: nat, keys: seq<Key>) returns (found': nat,
      keys': seq<Key>)
    requires found == |before| && keys == Sampled(before)
    ensures found' == found + |points| && keys' == Sampled(before + KeysOf(points))
  {
    ghost var all := before + KeysOf(points);
    found', keys' := found, keys;
    assert all[..found] == before;
    var i := 0;
    while i < |points|
      invariant 0 <= i <= |points|
      invariant found' == found + i && keys' == Sampled(all[..found'])
    {
      SampledGrows(all, found');
      found' := found' + 1;
      if found' % SAMPLE == 0 {
        keys' := keys' + [points[i].key];
      }
      i := i + 1;
    }
    assert all[..found'] == all;
  }

  /** Collects every hundredth key found strictly inside the range. */
  method Thin(files: seq<seq<Point>>, start: Key, end: Key) returns (keys: seq<Key>)
    requires WellFormed(files)
    ensures keys == Sampled(InsideKeys(files, start, end))
  {
    keys := [];
    var found := 0;
    var f := 0;
    while f < |files|
      invariant 0 <= f <= |files|
      invariant found == |InsideKeys(files[..f], start, end)|
      invariant keys == Sampled(InsideKeys(files[..f], start, end))
    {
      var inside := TakeExcludedRange(files[f], start, end);
      InsideKeysGrow(files, f, start, end);
      found, keys := SampleFile(inside, InsideKeys(files[..f], start, end), found, keys);
      f := f + 1;
    }
    assert files[..f] == files;
  }

  lemma {:induction false} InsideKeysGrow(files: seq<seq<Point>>, n: nat, start: Key, end: Key)
    requires n < |files|
    ensures InsideKeys(files[..n + 1], start, end) ==
            InsideKeys(files[..n], start, end) + KeysOf(StrictlyInside(files[n], start, end))
  {
    assert files[..n + 1][..n] == files[..n];
  }

  lemma {:induction false} SampledGrows(keys: seq<Key>, n: nat)
    requires n < |keys|
    ensures Sampled(keys[..n + 1]) == Sampled(keys[..n]) + if (n + 1) % SAMPLE == 0 then [keys[n]] else []
  {
  }

  /** Keys 0, step, 2 * step, and so on. */
  ghost predicate Stepped(keys: seq<Key>, step: nat, r: seq<Key>) {
    && (|r| - 1) * step < |keys| <= |r| * step
    && forall i | 0 <= i < |r| :: OnStep(keys, step, i, r[i])
  }

  ghost predicate OnStep(keys: seq<Key>, step: nat, i: nat, k: Key) {
    0 <= i * step < |keys| && k == keys[i * step]
  }

  method StepBy(keys: seq<Key>, step: nat) returns (r: seq<Key>)
    requires step > 0
    ensures Stepped(keys, step, r)
    ensures forall k | k in r :: k in keys
  {
    r := [];
    var at := 0;
    while at < |keys|
      invariant at == |r| * step && (|r| - 1) * step < |keys|
      invariant forall k | k in r :: k in keys
      invariant forall i | 0 <= i < |r| :: OnStep(keys, step, i, r[i])
    {
      assert OnStep(keys, step, |r|, keys[at]);
      r := r + [keys[at]];
      Distribute(step, |r| - 1);
      at := at + step;
    }
  }

  /** The keys that are sorted: the sample, thinned again when it is very large. */
  ghost predicate Thinned(sample: seq<Key>, keys: seq<Key>) {
    if |sample| > 20000 then Stepped(sample, |sample| / 10000, keys) else keys == sample
  }

  method Reduce(sample: seq<Key>) returns (keys: seq<Key>)
    ensures Thinned(sample, keys)
    ensures forall k | k in keys :: k in sample
  {
    keys := sample;
    if |keys| > SELECTION_LIMIT {
      keys := StepBy(keys, |keys| / SELECTION_TARGET);
    }
  }

  /** `k` is the first point after the first i of `parts` even parts. */
  ghost predicate EndsPart(points: seq<Key>, parts: nat, i: nat, k: Key)
    requires parts > 0
  {
    var m := |points| * i / parts;
    0 <= m < |points| && k == points[m]
  }

  /** `r` divides the points: all of them if they are too few, else one at each inner boundary. */
  ghost predicate Divides(points: seq<Key>, parts: nat, r: seq<Key>)
    requires parts > 0
  {
    if |points| < parts then r == points
    else |r| == parts - 1 && forall i | 0 <= i < |r| :: EndsPart(points, parts, i + 1, r[i])
  }

  method PickBoundaries(points: seq<Key>, parts: nat) returns (r: seq<Key>)
    requires parts > 0
    ensures Divides(points, parts, r)
  {
    if |points| < parts {
      return points;
    }
    r := [];
    var i := 1;
    while i < parts
      invariant 1 <= i <= parts && |r| == i - 1
      invariant forall j | 0 <= j < |r| :: EndsPart(points, parts, j + 1, r[j])
    {
      BoundaryInside(|points|, parts, i);
      r := r + [points[Boundary(|points|, parts, i)]];
      i := i + 1;
    }
  }

  /** Divides the range at its sampled points into `parts` parts as even as whole numbers allow, in
      key order and strictly inside the range. */
  method DivideRange(files: seq<seq<Point>>, start: Key, end: Key, parts: nat) returns (r: seq<Key>)
    requires WellFormed(files) && parts > 0
    ensures exists keys :: Thinned(Sampled(InsideKeys(files, start, end)), keys) &&
                           Divides(Dedup(Sort(keys, LessEq)), parts, r)
    ensures StrictlyAscending(r)
    ensures forall k | k in r :: Less(start, k) && Less(k, end)
  {
    var sample := Thin(files, start, end);
    if sample == [] {
      assert Thinned(sample, []) && Divides(Dedup(Sort([], LessEq)), parts, []);
      return [];
    }
    var keys := Reduce(sample);
    var points := Dedup(Sort(keys, LessEq));
    r := PickBoundaries(points, parts);
    DividesInOrder(keys, parts, r);
    InsideKeysInside(files, start, end);
  }

  /** The dividing keys ascend and come from the keys divided. */
  lemma {:induction false} DividesInOrder(keys: seq<Key>, parts: nat, r: seq<Key>)
    requires parts > 0 && Divides(Dedup(Sort(keys, LessEq)), parts, r)
    ensures StrictlyAscending(r)
    ensures forall k | k in r :: k in keys
  {
    var sorted := Sort(keys, LessEq);
    var points := Dedup(sorted);
    Bytes.Order();
    SortIsSorted(keys, LessEq);
    SortKeepsElements(keys, LessEq);
    DedupAscends(sorted);
    if |points| >= parts {
      BoundariesAscend(points, parts, r);
    }
    forall k | k in r ensures k in keys {
      assert k in points;
      assert k in multiset(sorted);
    }
  }

  lemma {:induction false} BoundariesAscend(points: seq<Key>, parts: nat, r: seq<Key>)
    requires StrictlyAscending(points) && 0 < parts <= |points| && Divides(points, parts, r)
    ensures StrictlyAscending(r)
    ensures forall k | k in r :: k in points
  {
    forall i, j | 0 <= i < j < |r| ensures Less(r[i], r[j]) {
      assert EndsPart(points, parts, i + 1, r[i]) && EndsPart(points, parts, j + 1, r[j]);
      BoundaryIncreases(|points|, parts, i + 1, j + 1);
    }
  }

  /** The i-th part, counted between neighbouring boundaries, holds the floor or the ceiling of the
      mean number of points. */
  lemma {:induction false} DividedEvenly(points: seq<Key>, parts: nat, r: seq<Key>, i: nat)
    requires 0 < parts <= |points| && Divides(points, parts, r) && i < parts
    ensures var lo, hi := if i == 0 then 0 else Boundary(|points|, parts, i),
                          if i == |r| then |points| else Boundary(|points|, parts, i + 1);
            && (i > 0 ==> 0 <= lo < |points| && points[lo] == r[i - 1])
            && (i < |r| ==> 0 <= hi < |points| && points[hi] == r[i])
            && |points| / parts <= hi - lo <= CeilDiv(|points|, parts)
  {
    BoundaryEnds(|points|, parts);
    PartsAreEven(|points|, parts, i);
    if i > 0 {
      assert EndsPart(points, parts, i, r[i - 1]);
    }
    if i < |r| {
      assert EndsPart(points, parts, i + 1, r[i]);
    }
  }
}
