/** The range-property index: a collector samples cumulative sizes and counts along an ascending
    stream of entries, and binary search over the samples estimates any range. */
module RangeIndex {
  import opened Options
  import opened Bytes
  import opened Sequences

  // ---------- entries ----------

  // A blob index counts the blob it points to, if it decodes.
  datatype EntryType = Put | BlobIndex(blobSize: Option<nat>) | Other
  datatype Entry = Entry(key: Key, valueLen: nat, kind: EntryType)

  function EntrySize(entry: Entry): Option<nat> {
    match entry.kind
    case Put => Some(entry.valueLen)
    case BlobIndex(Some(blob)) => Some(blob + entry.valueLen)
    case _ => None
  }

  // ---------- offsets ----------

  datatype OffsetKind = Size | Keys

  datatype Offsets = Offsets(size: nat, keys: nat) {
    function Get(kind: OffsetKind): nat {
      match kind
      case Size => size
      case Keys => keys
    }
  }

  const ZERO := Offsets(0, 0)

  datatype Point = Point(key: Key, offsets: Offsets)

  // A counted entry: its key and its weight in bytes.
  datatype Item = Item(key: Key, size: nat)

  function Plus(o: Offsets, item: Item): Offsets {
    Offsets(o.size + item.size, o.keys + 1)
  }

  ghost predicate AscendingItems(items: seq<Item>) {
    forall i, j | 0 <= i < j < |items| :: Less(items[i].key, items[j].key)
  }

  ghost predicate AscendingPoints(points: seq<Point>) {
    forall i, j | 0 <= i < j < |points| :: Less(points[i].key, points[j].key)
  }

  ghost predicate Monotone(points: seq<Point>) {
    forall i, j, kind: OffsetKind | 0 <= i < j < |points| :: points[i].offsets.Get(kind) <= points[j].offsets.Get(kind)
  }

  /** The totals of the items up to a key, by a naive scan. */
  ghost function Below(items: seq<Item>, x: Key): Offsets {
    if items == [] then ZERO
    else
      var n := |items| - 1;
      var rest := Below(items[..n], x);
      if LessEq(items[n].key, x) then Plus(rest, items[n]) else rest
  }

  /** The totals of the items with start < key <= end, by a naive scan. */
  ghost function InRange(items: seq<Item>, start: Key, end: Key): Offsets {
    if items == [] then ZERO
    else
      var n := |items| - 1;
      var rest := InRange(items[..n], start, end);
      if Less(start, items[n].key) && LessEq(items[n].key, end) then Plus(rest, items[n]) else rest
  }

  /** The offsets of the last point at or before a key. */
  ghost function Floor(points: seq<Point>, x: Key): Offsets {
    if points == [] then ZERO
    else
      var n := |points| - 1;
      if LessEq(points[n].key, x) then points[n].offsets else Floor(points[..n], x)
  }

  // ---------- sampling ----------

  /** An offset lags the truth by less than a distance, or not at all. */
  ghost predicate Lags(sampled: nat, truth: nat, distance: nat) {
    sampled <= truth && (sampled == truth || truth - sampled < distance)
  }

  ghost predicate Close(sampled: Offsets, truth: Offsets, sizeDistance: nat, keysDistance: nat) {
    Lags(sampled.size, truth.size, sizeDistance) && Lags(sampled.keys, truth.keys, keysDistance)
  }

  /** At every key, sampled or not, the last point lags the truth by less than the distances. */
  ghost predicate Accurate(points: seq<Point>, items: seq<Item>, sizeDistance: nat, keysDistance: nat) {
    forall x: Key :: Close(Floor(points, x), Below(items, x), sizeDistance, keysDistance)
  }

  /** Points ascend, and end at the last item, with its total, or before it. */
  ghost predicate Ordered(points: seq<Point>, items: seq<Item>) {
    && AscendingItems(items) && AscendingPoints(points) && Monotone(points)
    && (points != [] ==> items != [] && LessEq(points[|points| - 1].key, items[|items| - 1].key))
    && (points != [] && points[|points| - 1].key == items[|items| - 1].key ==> LastOffsets(points) == Total(items))
  }

  ghost function LastOffsets(points: seq<Point>): Offsets {
    if points == [] then ZERO else points[|points| - 1].offsets
  }

  ghost function Total(items: seq<Item>): Offsets {
    if items == [] then ZERO else Plus(Total(items[..|items| - 1]), items[|items| - 1])
  }

  /** What the collector remembers. */
  datatype Sampler = Sampler(points: seq<Point>, last: Offsets, lastKey: Key, cur: Offsets)

  const FRESH := Sampler([], ZERO, [], ZERO)

  predicate Forward(s: Sampler) {
    s.last.size <= s.cur.size && s.last.keys <= s.cur.keys
  }

  predicate TakesPoint(s: Sampler, item: Item, sizeDistance: nat, keysDistance: nat)
    requires Forward(s)
  {
    var cur := Plus(s.cur, item);
    s.lastKey == [] || cur.size - s.last.size >= sizeDistance || cur.keys - s.last.keys >= keysDistance
  }

  function AddItem(s: Sampler, item: Item, sizeDistance: nat, keysDistance: nat): Sampler
    requires Forward(s)
  {
    var cur := Plus(s.cur, item);
    if TakesPoint(s, item, sizeDistance, keysDistance)
    then Sampler(s.points + [Point(item.key, cur)], cur, item.key, cur)
    else Sampler(s.points, s.last, item.key, cur)
  }

  function ItemOf(entry: Entry): Option<Item> {
    var size := EntrySize(entry);
    if size.None? then None else Some(Item(entry.key, |entry.key| + size.value))
  }

  function AddEntry(s: Sampler, entry: Entry, sizeDistance: nat, keysDistance: nat): Sampler
    requires Forward(s)
  {
    if ItemOf(entry).None? then s else AddItem(s, ItemOf(entry).value, sizeDistance, keysDistance)
  }

  function Finished(s: Sampler): Sampler
    requires Forward(s)
  {
    if s.cur.size > s.last.size || s.cur.keys > s.last.keys
    then s.(points := s.points + [Point(s.lastKey, s.cur)], last := s.cur)
    else s
  }

  class Collector {
    const sizeDistance: nat
    const keysDistance: nat
    var points: seq<Point>
    var lastOffsets: Offsets
    var lastKey: Key
    var curOffsets: Offsets

    ghost function Model(): Sampler
      reads this
    {
      Sampler(points, lastOffsets, lastKey, curOffsets)
    }

    constructor (sizeDist: nat, keysDist: nat)
      ensures Model() == FRESH && sizeDistance == sizeDist && keysDistance == keysDist
    {
      sizeDistance, keysDistance := sizeDist, keysDist;
      points, lastOffsets, lastKey, curOffsets := [], ZERO, [], ZERO;
    }

    method InsertNewPoint(key: Key)
      modifies this`points, this`lastOffsets
      ensures lastOffsets == curOffsets && points == old(points) + [Point(key, curOffsets)]
    {
      lastOffsets := curOffsets;
      points := points + [Point(key, curOffsets)];
    }

    method Add(entry: Entry)
      requires Forward(Model())
      modifies this
      ensures Model() == AddEntry(old(Model()), entry, sizeDistance, keysDistance)
      ensures Forward(Model())
    {
      var size := EntrySize(entry);
      if size.None? {
        return;
      }
      curOffsets := Offsets(curOffsets.size + |entry.key| + size.value, curOffsets.keys + 1);
      if lastKey == []
         || curOffsets.size - lastOffsets.size >= sizeDistance
         || curOffsets.keys - lastOffsets.keys >= keysDistance
      {
        InsertNewPoint(entry.key);
      }
      lastKey := entry.key;
    }

    /** Takes a last point unless the last item already has one. */
    method Finish()
      requires Forward(Model())
      modifies this
      ensures Model() == Finished(old(Model()))
    {
      if curOffsets.size - lastOffsets.size > 0 || curOffsets.keys - lastOffsets.keys > 0 {
        InsertNewPoint(lastKey);
      }
    }
  }

  // ---------- a whole stream ----------

  /** The entries that count, with their weights. */
  ghost function Counted(entries: seq<Entry>): seq<Item> {
    if entries == [] then []
    else
      var n := |entries| - 1;
      var item := ItemOf(entries[n]);
      Counted(entries[..n]) + (if item.None? then [] else [item.value])
  }

  ghost function Feed(entries: seq<Entry>, sizeDistance: nat, keysDistance: nat): (s: Sampler)
    ensures Forward(s)
  {
    if entries == [] then FRESH
    else AddEntry(Feed(entries[..|entries| - 1], sizeDistance, keysDistance), entries[|entries| - 1], sizeDistance,
        keysDistance)
  }

  /** What the collector's memory says of the items counted so far. */
  ghost predicate Consistent(s: Sampler, items: seq<Item>, sizeDistance: nat, keysDistance: nat) {
    && Ordered(s.points, items)
    && s.cur == Total(items)
    && s.lastKey == (if items == [] then [] else items[|items| - 1].key)
    && s.last == LastOffsets(s.points)
    && Accurate(s.points, items, sizeDistance, keysDistance)
  }

  lemma {:induction false} AddKeepsConsistent(s: Sampler, items: seq<Item>, sizeDistance: nat, keysDistance: nat,
      item: Item)
    requires Forward(s) && Consistent(s, items, sizeDistance, keysDistance)
    requires items != [] ==> Less(items[|items| - 1].key, item.key)
    ensures Consistent(AddItem(s, item, sizeDistance, keysDistance), items + [item], sizeDistance, keysDistance)
  {
    LastLags(s.points, items, sizeDistance, keysDistance);
    if TakesPoint(s, item, sizeDistance, keysDistance) {
      PointTaken(s.points, items, item, sizeDistance, keysDistance);
    } else {
      PointSkipped(s.points, items, item, sizeDistance, keysDistance);
    }
  }

  lemma {:induction false} AscendingPrefix(items: seq<Item>, item: Item)
    requires AscendingItems(items + [item])
    ensures AscendingItems(items) && (items != [] ==> Less(items[|items| - 1].key, item.key))
  {
    var all := items + [item];
    assert forall i | 0 <= i < |items| :: items[i] == all[i];
    if items != [] {
      assert Less(all[|items| - 1].key, all[|items|].key);
    }
  }

  /** Every stream whose counted keys ascend is sampled accurately. */
  lemma {:induction false} StreamIsAccurate(entries: seq<Entry>, sizeDistance: nat, keysDistance: nat)
    requires AscendingItems(Counted(entries))
    ensures Consistent(Feed(entries, sizeDistance, keysDistance), Counted(entries), sizeDistance, keysDistance)
    decreases |entries|
  {
    if entries != [] {
      var prefix, entry := entries[..|entries| - 1], entries[|entries| - 1];
      if ItemOf(entry).None? {
        assert Counted(entries) == Counted(prefix);
        StreamIsAccurate(prefix, sizeDistance, keysDistance);
      } else {
        var item := ItemOf(entry).value;
        AscendingPrefix(Counted(prefix), item);
        StreamIsAccurate(prefix, sizeDistance, keysDistance);
        AddKeepsConsistent(Feed(prefix, sizeDistance, keysDistance), Counted(prefix), sizeDistance, keysDistance, item);
      }
    }
  }

  /** Finishing leaves nothing unsampled: the points cover the stream, in order, within the distances,
      and end with its total. */
  lemma {:induction false} FinishedStream(entries: seq<Entry>, sizeDistance: nat, keysDistance: nat)
    requires AscendingItems(Counted(entries))
    ensures var points := Finished(Feed(entries, sizeDistance, keysDistance)).points;
            && AscendingPoints(points) && Monotone(points)
            && Accurate(points, Counted(entries), sizeDistance, keysDistance)
            && LastOffsets(points) == Total(Counted(entries))
  {
    var s, items := Feed(entries, sizeDistance, keysDistance), Counted(entries);
    StreamIsAccurate(entries, sizeDistance, keysDistance);
    LastLags(s.points, items, sizeDistance, keysDistance);
    if s.cur.size > s.last.size || s.cur.keys > s.last.keys {
      LastPointTaken(s.points, items, sizeDistance, keysDistance);
    }
  }

  // ---------- a naive scan of the entries ----------

  /** Puts count, and blob indexes that decode. */
  ghost predicate Counts(entry: Entry) {
    entry.kind.Put? || (entry.kind.BlobIndex? && entry.kind.blobSize.Some?)
  }

  /** Key, value and the blob the value points to. */
  ghost function Weight(entry: Entry): nat
    requires Counts(entry)
  {
    |entry.key| + entry.valueLen + if entry.kind.BlobIndex? then entry.kind.blobSize.value else 0
  }

  ghost predicate AscendingEntries(entries: seq<Entry>) {
    forall i, j | 0 <= i < j < |entries| && Counts(entries[i]) && Counts(entries[j]) ::
      Less(entries[i].key, entries[j].key)
  }

  datatype Region = Everything | UpTo(x: Key) | Between(start: Key, end: Key)

  ghost predicate Covers(region: Region, k: Key) {
    match region
    case Everything => true
    case UpTo(x) => LessEq(k, x)
    case Between(start, end) => Less(start, k) && LessEq(k, end)
  }

  /** Bytes and number of the entries that count and lie in a region. */
  ghost function Scan(entries: seq<Entry>, region: Region): Offsets {
    if entries == [] then ZERO
    else
      var entry, rest := entries[0], Scan(entries[1..], region);
      if Counts(entry) && Covers(region, entry.key) then Offsets(rest.size + Weight(entry), rest.keys + 1) else rest
  }

  lemma {:induction false} ScanLast(entries: seq<Entry>, region: Region)
    requires entries != []
    ensures var n := |entries| - 1;
            var entry, rest := entries[n], Scan(entries[..n], region);
            Scan(entries, region) ==
            if Counts(entry) && Covers(region, entry.key) then Offsets(rest.size + Weight(entry), rest.keys + 1)
                else rest
    decreases |entries|
  {
    var n := |entries| - 1;
    if n > 0 {
      ScanLast(entries[1..], region);
      assert entries[1..][..n - 1] == entries[..n][1..];
    }
  }

  /** What the collector counts is what the scan counts. */
  lemma {:induction false} CountedScans(entries: seq<Entry>, x: Key, start: Key, end: Key)
    ensures Total(Counted(entries)) == Scan(entries, Everything)
    ensures Below(Counted(entries), x) == Scan(entries, UpTo(x))
    ensures InRange(Counted(entries), start, end) == Scan(entries, Between(start, end))
    decreases |entries|
  {
    if entries != [] {
      var n := |entries| - 1;
      CountedScans(entries[..n], x, start, end);
      ScanLast(entries, Everything);
      ScanLast(entries, UpTo(x));
      ScanLast(entries, Between(start, end));
      var items := Counted(entries[..n]);
      CountedLast(entries);
      if Counts(entries[n]) {
        var item := Item(entries[n].key, Weight(entries[n]));
        ScanExtends(items, item, x);
        RangeExtends(items, item, start, end);
      } else {
        assert Counted(entries) == items;
      }
    }
  }

  lemma {:induction false} CountedLast(entries: seq<Entry>)
    requires entries != []
    ensures var n := |entries| - 1;
            Counted(entries) ==
            Counted(entries[..n]) + if Counts(entries[n]) then [Item(entries[n].key, Weight(entries[n]))] else []
  {
  }

  lemma {:induction false} RangeExtends(items: seq<Item>, item: Item, start: Key, end: Key)
    ensures InRange(items + [item], start, end) ==
            if Less(start, item.key) && LessEq(item.key, end) then Plus(InRange(items, start, end), item)
            else InRange(items, start, end)
  {
  }

  lemma {:induction false} CountedFrom(entries: seq<Entry>, item: Item)
    requires item in Counted(entries)
    ensures exists i :: 0 <= i < |entries| && Counts(entries[i]) && entries[i].key == item.key
    decreases |entries|
  {
    var n := |entries| - 1;
    if item in Counted(entries[..n]) {
      CountedFrom(entries[..n], item);
    } else {
      assert Counts(entries[n]) && entries[n].key == item.key;
    }
  }

  lemma {:induction false} AscendingCounted(entries: seq<Entry>)
    requires AscendingEntries(entries)
    ensures AscendingItems(Counted(entries))
    decreases |entries|
  {
    if entries != [] {
      var n := |entries| - 1;
      var items := Counted(entries[..n]);
      AscendingCounted(entries[..n]);
      forall i | 0 <= i < |items| && Counts(entries[n]) ensures Less(items[i].key, entries[n].key) {
        CountedFrom(entries[..n], items[i]);
      }
    }
  }

  /** The points of a finished stream ascend, never decrease, end with the totals of a scan, and at every
      key lag a scan up to that key by less than the distances. */
  lemma {:induction false} PointsFollowScan(entries: seq<Entry>, sizeDistance: nat, keysDistance: nat)
    requires AscendingEntries(entries)
    ensures var points := Finished(Feed(entries, sizeDistance, keysDistance)).points;
            && AscendingPoints(points) && Monotone(points)
            && LastOffsets(points) == Scan(entries, Everything)
            && forall x: Key :: Close(Floor(points, x), Scan(entries, UpTo(x)), sizeDistance, keysDistance)
  {
    var points := Finished(Feed(entries, sizeDistance, keysDistance)).points;
    AscendingCounted(entries);
    FinishedStream(entries, sizeDistance, keysDistance);
    CountedScans(entries, [], [], []);
    forall x: Key ensures Close(Floor(points, x), Scan(entries, UpTo(x)), sizeDistance, keysDistance) {
      CountedScans(entries, x, [], []);
      assert Close(Floor(points, x), Below(Counted(entries), x), sizeDistance, keysDistance);
    }
  }

  // ---------- points are sparse ----------

  /** Next to each other only at one of the distances, or after the empty key. */
  ghost predicate FarApart(p: Point, q: Point, sizeDistance: nat, keysDistance: nat) {
    || q.offsets.size - p.offsets.size >= sizeDistance
    || q.offsets.keys - p.offsets.keys >= keysDistance
    || p.key == []
  }

  ghost predicate Sparse(points: seq<Point>, sizeDistance: nat, keysDistance: nat) {
    forall i | 0 < i < |points| :: FarApart(points[i - 1], points[i], sizeDistance, keysDistance)
  }

  ghost predicate BeginsWith(points: seq<Point>, items: seq<Item>) {
    items != [] ==> points != [] && points[0] == Point(items[0].key, Offsets(items[0].size, 1))
  }

  lemma {:induction false} SparseGrows(s: Sampler, items: seq<Item>, sizeDistance: nat, keysDistance: nat, item: Item)
    requires Forward(s) && Consistent(s, items, sizeDistance, keysDistance)
    requires Sparse(s.points, sizeDistance, keysDistance) && BeginsWith(s.points, items)
    ensures var s' := AddItem(s, item, sizeDistance, keysDistance);
            Sparse(s'.points, sizeDistance, keysDistance) && BeginsWith(s'.points, items + [item])
  {
    var points := s.points;
    if TakesPoint(s, item, sizeDistance, keysDistance) && points != [] {
      var p, q := points[|points| - 1], Point(item.key, Plus(s.cur, item));
      if s.lastKey == [] {
        LastPointEmpty(p.key, items[|items| - 1].key);
      }
      assert FarApart(p, q, sizeDistance, keysDistance);
    }
  }

  lemma {:induction false} LastPointEmpty(k: Key, last: Key)
    requires LessEq(k, last) && last == []
    ensures k == []
  {
  }

  /** The first counted entry gives the first point, and further ones follow only at the distances, but
      for the last point that finishing takes. */
  lemma {:induction false} StreamIsSparse(entries: seq<Entry>, sizeDistance: nat, keysDistance: nat)
    requires AscendingEntries(entries)
    ensures var s := Feed(entries, sizeDistance, keysDistance);
            Sparse(s.points, sizeDistance, keysDistance) && BeginsWith(s.points, Counted(entries))
    ensures var s := Feed(entries, sizeDistance, keysDistance);
            Finished(s).points == s.points || Finished(s).points[..|s.points|] == s.points
    decreases |entries|
  {
    if entries != [] {
      var prefix, entry := entries[..|entries| - 1], entries[|entries| - 1];
      StreamIsSparse(prefix, sizeDistance, keysDistance);
      if ItemOf(entry).Some? {
        AscendingCounted(prefix);
        StreamIsAccurate(prefix, sizeDistance, keysDistance);
        SparseGrows(Feed(prefix, sizeDistance, keysDistance), Counted(prefix), sizeDistance, keysDistance,
            ItemOf(entry).value);
      }
    }
  }

  // ---------- taking and skipping points ----------

  lemma {:induction false} AllBelow(items: seq<Item>, x: Key)
    requires AscendingItems(items) && (items != [] ==> LessEq(items[|items| - 1].key, x))
    ensures Below(items, x) == Total(items)
  {
    if |items| > 1 {
      var n := |items| - 1;
      LessTransitiveEq(items[n - 1].key, items[n].key, x);
      AllBelow(items[..n], x);
    }
  }

  lemma {:induction false} LessTransitiveEq(a: Key, b: Key, c: Key)
    requires Less(a, b) && LessEq(b, c)
    ensures LessEq(a, c)
  {
    if b != c {
      LessTransitive(a, b, c);
    }
  }

  /** The last point lags the grand total: accuracy, read at the last key. */
  lemma {:induction false} LastLags(points: seq<Point>, items: seq<Item>, sizeDistance: nat, keysDistance: nat)
    requires Ordered(points, items) && Accurate(points, items, sizeDistance, keysDistance)
    ensures Close(LastOffsets(points), Total(items), sizeDistance, keysDistance)
  {
    if items != [] {
      var x := items[|items| - 1].key;
      AllBelow(items, x);
      assert Close(Floor(points, x), Below(items, x), sizeDistance, keysDistance);
    }
  }

  lemma {:induction false} OrderedExtends(points: seq<Point>, items: seq<Item>, item: Item)
    requires Ordered(points, items) && (items != [] ==> Less(items[|items| - 1].key, item.key))
    ensures AscendingItems(items + [item])
    ensures forall i | 0 <= i < |points| :: Less(points[i].key, item.key)
  {
    Bytes.Order();
  }

  lemma {:induction false} ScanExtends(items: seq<Item>, item: Item, x: Key)
    ensures Below(items + [item], x) == if LessEq(item.key, x) then Plus(Below(items, x), item) else Below(items, x)
    ensures Total(items + [item]) == Plus(Total(items), item)
  {
  }

  lemma {:induction false} FloorExtends(points: seq<Point>, p: Point, x: Key)
    ensures Floor(points + [p], x) == if LessEq(p.key, x) then p.offsets else Floor(points, x)
  {
  }

  lemma {:induction false} BelowNew(items: seq<Item>, item: Item, x: Key)
    requires AscendingItems(items) && (items != [] ==> Less(items[|items| - 1].key, item.key)) && LessEq(item.key, x)
    ensures Below(items, x) == Total(items)
  {
    if items != [] {
      LessTransitiveEq(items[|items| - 1].key, item.key, x);
      AllBelow(items, x);
    }
  }

  lemma {:induction false} MonotoneExtends(points: seq<Point>, p: Point)
    requires Monotone(points)
    requires forall kind: OffsetKind :: LastOffsets(points).Get(kind) <= p.offsets.Get(kind)
    ensures Monotone(points + [p])
  {
  }

  lemma {:induction false} PointTaken(points: seq<Point>, items: seq<Item>, item: Item, sizeDistance: nat,
      keysDistance: nat)
    requires Ordered(points, items) && Accurate(points, items, sizeDistance, keysDistance)
    requires items != [] ==> Less(items[|items| - 1].key, item.key)
    requires Close(LastOffsets(points), Total(items), sizeDistance, keysDistance)
    ensures var points', items' := points + [Point(item.key, Plus(Total(items), item))], items + [item];
            Ordered(points', items') && Accurate(points', items', sizeDistance, keysDistance) &&
                Total(items') == Plus(Total(items), item)
  {
    var p, items' := Point(item.key, Plus(Total(items), item)), items + [item];
    OrderedExtends(points, items, item);
    MonotoneExtends(points, p);
    ScanExtends(items, item, item.key);
    forall x: Key ensures Close(Floor(points + [p], x), Below(items', x), sizeDistance, keysDistance) {
      ScanExtends(items, item, x);
      FloorExtends(points, p, x);
      if LessEq(item.key, x) {
        BelowNew(items, item, x);
      } else {
        assert Close(Floor(points, x), Below(items, x), sizeDistance, keysDistance);
      }
    }
  }

  lemma {:induction false} PointSkipped(points: seq<Point>, items: seq<Item>, item: Item, sizeDistance: nat,
      keysDistance: nat)
    requires Ordered(points, items) && Accurate(points, items, sizeDistance, keysDistance)
    requires items != [] && Less(items[|items| - 1].key, item.key)
    requires Close(LastOffsets(points), Plus(Total(items), item), sizeDistance, keysDistance)
    ensures var items' := items + [item];
            Ordered(points, items') && Accurate(points, items', sizeDistance, keysDistance) &&
                Total(items') == Plus(Total(items), item)
  {
    var items' := items + [item];
    OrderedExtends(points, items, item);
    LessIrreflexive(item.key);
    ScanExtends(items, item, item.key);
    forall x: Key ensures Close(Floor(points, x), Below(items', x), sizeDistance, keysDistance) {
      ScanExtends(items, item, x);
      if LessEq(item.key, x) {
        BelowNew(items, item, x);
        LastPointBefore(points, item.key, x);
      } else {
        assert Close(Floor(points, x), Below(items, x), sizeDistance, keysDistance);
      }
    }
  }

  lemma {:induction false} LastPointBefore(points: seq<Point>, k: Key, x: Key)
    requires forall i | 0 <= i < |points| :: Less(points[i].key, k)
    requires LessEq(k, x)
    ensures Floor(points, x) == LastOffsets(points)
  {
    if points != [] {
      LessTransitiveEq(points[|points| - 1].key, k, x);
    }
  }

  lemma {:induction false} LastPointTaken(points: seq<Point>, items: seq<Item>, sizeDistance: nat, keysDistance: nat)
    requires Ordered(points, items) && Accurate(points, items, sizeDistance, keysDistance)
    requires items != [] && Close(LastOffsets(points), Total(items), sizeDistance, keysDistance)
    requires points != [] ==> points[|points| - 1].key != items[|items| - 1].key
    ensures var points' := points + [Point(items[|items| - 1].key, Total(items))];
            Ordered(points', items) && Accurate(points', items, sizeDistance, keysDistance)
  {
    var k := items[|items| - 1].key;
    var p := Point(k, Total(items));
    MonotoneExtends(points, p);
    forall i | 0 <= i < |points| ensures Less(points[i].key, k) {
      if i < |points| - 1 {
        LessTransitive(points[i].key, points[|points| - 1].key, k);
      }
    }
    forall x: Key ensures Close(Floor(points + [p], x), Below(items, x), sizeDistance, keysDistance) {
      FloorExtends(points, p, x);
      if LessEq(k, x) {
        AllBelow(items, x);
      } else {
        assert Close(Floor(points, x), Below(items, x), sizeDistance, keysDistance);
      }
    }
  }

  // ---------- searching ----------

  /** Binary search: the index of the key, or the index at which it would be inserted. */
  method BinarySearch(points: seq<Point>, x: Key) returns (found: bool, index: nat)
    requires AscendingPoints(points)
    ensures found ==> index < |points| && points[index].key == x
    ensures !found ==> index <= |points|
    ensures forall i | 0 <= i < index :: Less(points[i].key, x)
    ensures forall i | index <= i < |points| :: Less(x, points[i].key) || (found && i == index)
  {
    Bytes.Order();
    var lo, hi := 0, |points|;
    while lo < hi
      invariant 0 <= lo <= hi <= |points|
      invariant forall i | 0 <= i < lo :: Less(points[i].key, x)
      invariant forall i | hi <= i < |points| :: Less(x, points[i].key)
    {
      var mid := (lo + hi) / 2;
      if points[mid].key == x {
        return true, mid;
      } else if Less(points[mid].key, x) {
        lo := mid + 1;
      } else {
        hi := mid;
      }
    }
    return false, lo;
  }

  /** The point before the insertion index is the floor. */
  lemma {:induction false} FloorAt(points: seq<Point>, x: Key, n: nat)
    requires n <= |points|
    requires forall i | 0 <= i < n :: LessEq(points[i].key, x)
    requires forall i | n <= i < |points| :: Less(x, points[i].key)
    ensures Floor(points, x) == if n == 0 then ZERO else points[n - 1].offsets
    decreases |points|
  {
    Bytes.Order();
    if n < |points| {
      var m := |points| - 1;
      FloorAt(points[..m], x, n);
    }
  }

  method OffsetAt(points: seq<Point>, kind: OffsetKind, x: Key) returns (r: nat)
    requires AscendingPoints(points)
    ensures r == Floor(points, x).Get(kind)
  {
    Bytes.Order();
    var found, index := BinarySearch(points, x);
    if found {
      FloorAt(points, x, index + 1);
      r := points[index].offsets.Get(kind);
    } else {
      FloorAt(points, x, index);
      r := if index == 0 then 0 else points[index - 1].offsets.Get(kind);
    }
  }

  /** The estimate for a range; the offsets at its ends are never inverted. */
  method ApproximateDistance(points: seq<Point>, kind: OffsetKind, start: Key, end: Key) returns (r: nat)
    requires AscendingPoints(points) && Monotone(points) && LessEq(start, end)
    ensures Floor(points, start).Get(kind) + r == Floor(points, end).Get(kind)
  {
    if start == end {
      return 0;
    }
    var startOffset := OffsetAt(points, kind, start);
    var endOffset := OffsetAt(points, kind, end);
    FloorMonotone(points, kind, start, end);
    r := endOffset - startOffset;
  }

  lemma {:induction false} FloorMonotone(points: seq<Point>, kind: OffsetKind, start: Key, end: Key)
    requires Monotone(points) && LessEq(start, end)
    ensures Floor(points, start).Get(kind) <= Floor(points, end).Get(kind)
    decreases |points|
  {
    Bytes.Order();
    if points != [] {
      var n := |points| - 1;
      if LessEq(points[n].key, end) {
        FloorIsAPoint(points, start);
      } else {
        FloorMonotone(points[..n], kind, start, end);
      }
    }
  }

  lemma {:induction false} FloorIsAPoint(points: seq<Point>, x: Key)
    ensures Floor(points, x) == ZERO || exists i :: 0 <= i < |points| && points[i].offsets == Floor(points, x)
    decreases |points|
  {
    if points != [] && !LessEq(points[|points| - 1].key, x) {
      FloorIsAPoint(points[..|points| - 1], x);
    }
  }

  // ---------- the error bound ----------

  lemma {:induction false} RangeIsDifference(items: seq<Item>, start: Key, end: Key, kind: OffsetKind)
    requires LessEq(start, end)
    ensures InRange(items, start, end).Get(kind) == Below(items, end).Get(kind) - Below(items, start).Get(kind)
    decreases |items|
  {
    Bytes.Order();
    if items != [] {
      RangeIsDifference(items[..|items| - 1], start, end, kind);
    }
  }

  function Distance(kind: OffsetKind, sizeDistance: nat, keysDistance: nat): nat {
    match kind
    case Size => sizeDistance
    case Keys => keysDistance
  }

  /** The estimate of a range differs from the truth by less than the distance at which points were
      taken, and not at all if that distance is zero. */
  lemma {:induction false} EstimateBound(points: seq<Point>, items: seq<Item>, sizeDistance: nat, keysDistance: nat,
      kind: OffsetKind, start: Key, end: Key)
    requires Accurate(points, items, sizeDistance, keysDistance) && LessEq(start, end)
    ensures var estimate := Floor(points, end).Get(kind) - Floor(points, start).Get(kind);
            var truth := InRange(items, start, end).Get(kind);
            var distance: int := Distance(kind, sizeDistance, keysDistance);
            estimate == truth || -distance < estimate - truth < distance
  {
    RangeIsDifference(items, start, end, kind);
    assert Close(Floor(points, start), Below(items, start), sizeDistance, keysDistance);
    assert Close(Floor(points, end), Below(items, end), sizeDistance, keysDistance);
  }

  /** From stream to estimate: every entry collected, the points finished and the range estimated, the
      answer is within the distance of a naive scan of the stream, whatever the range. */
  method CollectAndEstimate(entries: seq<Entry>, sizeDistance: nat, keysDistance: nat, kind: OffsetKind, start: Key,
      end: Key)
    returns (r: nat)
    requires AscendingEntries(entries) && LessEq(start, end)
    ensures var truth := Scan(entries, Between(start, end)).Get(kind);
            var distance: int := Distance(kind, sizeDistance, keysDistance);
            r == truth || -distance < r - truth < distance
  {
    var collector := new Collector(sizeDistance, keysDistance);
    var i := 0;
    while i < |entries|
      invariant 0 <= i <= |entries|
      invariant collector.Model() == Feed(entries[..i], sizeDistance, keysDistance)
    {
      assert entries[..i + 1][..i] == entries[..i];
      collector.Add(entries[i]);
      i := i + 1;
    }
    assert entries[..i] == entries;
    collector.Finish();
    AscendingCounted(entries);
    FinishedStream(entries, sizeDistance, keysDistance);
    CountedScans(entries, start, start, end);
    EstimateBound(collector.points, Counted(entries), sizeDistance, keysDistance, kind, start, end);
    r := ApproximateDistance(collector.points, kind, start, end);
  }

  // ---------- points strictly inside a range ----------

  ghost function StrictlyInside(points: seq<Point>, start: Key, end: Key): seq<Point> {
    if points == [] then []
    else
      (if Inside(points[0], start, end) then [points[0]] else [])
      + StrictlyInside(points[1..], start, end)
  }

  /** The points with start < key < end, cut out between two binary searches. */
  method TakeExcludedRange(points: seq<Point>, start: Key, end: Key) returns (r: seq<Point>)
    requires AscendingPoints(points)
    ensures r == StrictlyInside(points, start, end)
  {
    Bytes.Order();
    var found, first := BinarySearch(points, start);
    if found {
      if first == |points| - 1 {
        InsideSlice(points, start, end, |points|, |points|);
        return [];
      }
      first := first + 1;
    }
    var found', last := BinarySearch(points, end);
    if last == 0 {
      InsideSlice(points, start, end, 0, 0);
      return [];
    }
    if first > last - 1 {
      InsideSlice(points, start, end, last, last);
      return [];
    }
    InsideSlice(points, start, end, first, last);
    r := points[first..last];
  }

  ghost predicate Inside(p: Point, start: Key, end: Key) {
    Less(start, p.key) && Less(p.key, end)
  }

  /** Exactly the points from lo up to hi lie inside. */
  ghost predicate InsideBetween(points: seq<Point>, start: Key, end: Key, lo: nat, hi: nat) {
    lo <= hi <= |points| && forall i | 0 <= i < |points| :: Inside(points[i], start, end) <==> lo <= i < hi
  }

  lemma {:induction false} NoneInside(points: seq<Point>, start: Key, end: Key)
    requires forall i | 0 <= i < |points| :: !Inside(points[i], start, end)
    ensures StrictlyInside(points, start, end) == []
    decreases |points|
  {
    if points != [] {
      NoneInside(points[1..], start, end);
    }
  }

  lemma {:induction false} AllInside(points: seq<Point>, start: Key, end: Key)
    requires forall i | 0 <= i < |points| :: Inside(points[i], start, end)
    ensures StrictlyInside(points, start, end) == points
    decreases |points|
  {
    if points != [] {
      AllInside(points[1..], start, end);
      assert points == [points[0]] + points[1..];
    }
  }

  lemma {:induction false} InsideConcat(p: seq<Point>, q: seq<Point>, start: Key, end: Key)
    ensures StrictlyInside(p + q, start, end) == StrictlyInside(p, start, end) + StrictlyInside(q, start, end)
    decreases |p|
  {
    if p == [] {
      assert p + q == q;
    } else {
      var first := if Inside(p[0], start, end) then [p[0]] else [];
      assert StrictlyInside(p + q, start, end) == first + StrictlyInside(p[1..] + q, start, end) by {
        assert (p + q)[0] == p[0] && (p + q)[1..] == p[1..] + q;
      }
      InsideConcat(p[1..], q, start, end);
      Associate(first, StrictlyInside(p[1..], start, end), StrictlyInside(q, start, end));
    }
  }

  lemma {:induction false} InsideSlice(points: seq<Point>, start: Key, end: Key, lo: nat, hi: nat)
    requires InsideBetween(points, start, end, lo, hi)
    ensures StrictlyInside(points, start, end) == points[lo..hi]
  {
    var before, inside, after := points[..lo], points[lo..hi], points[hi..];
    assert points == before + inside + after;
    InsideConcat(before + inside, after, start, end);
    InsideConcat(before, inside, start, end);
    NoneInside(before, start, end);
    AllInside(inside, start, end);
    NoneInside(after, start, end);
  }
}
