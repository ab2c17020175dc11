/** The stored form of range properties and of index handles: length-prefixed records in one
    buffer, under named properties, with a fallback to the older size properties. */
module RangeCodec {
  import opened Bytes
  import opened Sequences
  import opened Sorting
  import opened RangeIndex

  datatype Error = KeyNotFound | UnexpectedEof
  datatype Result<+T> = Ok(value: T) | Err(error: Error)

  // ---------- big-endian integers ----------

  const U64_SIZE: nat := 8

  function Pow256(n: nat): nat {
    if n == 0 then 1 else 256 * Pow256(n - 1)
  }

  function EncodeUint(x: nat, width: nat): (r: Key)
    ensures |r| == width
  {
    if width == 0 then [] else EncodeUint(x / 256, width - 1) + [x % 256]
  }

  function DecodeUint(s: Key): nat {
    if s == [] then 0 else 256 * DecodeUint(s[..|s| - 1]) + s[|s| - 1]
  }

  predicate IsU64(x: nat) {
    x < Pow256(U64_SIZE)
  }

  lemma {:induction false} UintRoundTrip(x: nat, width: nat)
    requires x < Pow256(width)
    ensures DecodeUint(EncodeUint(x, width)) == x
  {
    if width > 0 {
      UintRoundTrip(x / 256, width - 1);
      assert EncodeUint(x, width)[..width - 1] == EncodeUint(x / 256, width - 1);
    }
  }

  lemma {:induction false} UintCanonical(s: Key)
    ensures DecodeUint(s) < Pow256(|s|)
    ensures EncodeUint(DecodeUint(s), |s|) == s
  {
    if s != [] {
      var t := s[..|s| - 1];
      UintCanonical(t);
      assert DecodeUint(s) / 256 == DecodeUint(t) && DecodeUint(s) % 256 == s[|s| - 1];
      assert s == t + [s[|s| - 1]];
    }
  }

  lemma {:induction false} LessExtends(a: Key, b: Key, c: Key, d: Key)
    requires |a| == |b| && Less(a, b)
    ensures Less(a + c, b + d)
    decreases |a|
  {
    if a[0] == b[0] {
      LessExtends(a[1..], b[1..], c, d);
      assert (a + c)[1..] == a[1..] + c && (b + d)[1..] == b[1..] + d;
    }
  }

  lemma {:induction false} LessAtEnd(a: Key, c: Byte, d: Byte)
    requires c < d
    ensures Less(a + [c], a + [d])
    decreases |a|
  {
    if a != [] {
      LessAtEnd(a[1..], c, d);
      assert (a + [c])[1..] == a[1..] + [c] && (a + [d])[1..] == a[1..] + [d];
    }
  }

  /** The most significant byte comes first: encoded numbers compare as the numbers do. */
  lemma {:induction false} UintOrder(x: nat, y: nat, width: nat)
    requires x < y < Pow256(width)
    ensures Less(EncodeUint(x, width), EncodeUint(y, width))
    decreases width
  {
    if x / 256 < y / 256 {
      UintOrder(x / 256, y / 256, width - 1);
      LessExtends(EncodeUint(x / 256, width - 1), EncodeUint(y / 256, width - 1), [x % 256], [y % 256]);
    } else {
      LessAtEnd(EncodeUint(x / 256, width - 1), x % 256, y % 256);
    }
  }

  // ---------- records ----------

  // | klen | k | first | second |
  datatype Record = Record(key: Key, first: nat, second: nat)

  predicate Fits(r: Record) {
    IsU64(|r.key|) && IsU64(r.first) && IsU64(r.second)
  }

  function EncodeRecord(r: Record): Key {
    EncodeUint(|r.key|, U64_SIZE) + r.key + EncodeUint(r.first, U64_SIZE) + EncodeUint(r.second, U64_SIZE)
  }

  function EncodeRecords(rs: seq<Record>): Key {
    if rs == [] then [] else EncodeRecord(rs[0]) + EncodeRecords(rs[1..])
  }

  /** One record off the front of a buffer, if it is all there. */
  function DecodeRecord(buf: Key): (r: Result<(Record, Key)>)
    ensures r.Ok? ==> |r.value.1| < |buf|
  {
    if |buf| < U64_SIZE then Err(UnexpectedEof)
    else
      var klen := DecodeUint(buf[..U64_SIZE]);
      var rest := buf[U64_SIZE..];
      if |rest| < klen then Err(UnexpectedEof)
      else
        var tail := rest[klen..];
        if |tail| < 2 * U64_SIZE then Err(UnexpectedEof)
        else Ok((Record(rest[..klen], DecodeUint(tail[..U64_SIZE]), DecodeUint(tail[U64_SIZE..2 * U64_SIZE])),
            tail[2 * U64_SIZE..]))
  }

  function DecodeRecords(buf: Key): Result<seq<Record>>
    decreases |buf|
  {
    if buf == [] then Ok([])
    else
      match DecodeRecord(buf)
      case Err(e) => Err(e)
      case Ok((r, rest)) =>
        match DecodeRecords(rest)
        case Err(e) => Err(e)
        case Ok(rs) => Ok([r] + rs)
  }

  /** Slicing five joined parts apart again. */
  lemma {:induction false} Slices(a: Key, k: Key, b: Key, c: Key, rest: Key)
    requires |a| == U64_SIZE && |b| == U64_SIZE && |c| == U64_SIZE
    ensures var buf := a + k + b + c + rest;
            && buf[..U64_SIZE] == a && buf[U64_SIZE..] == k + (b + c + rest)
  {
  }

  lemma {:induction false} TailSlices(k: Key, b: Key, c: Key, rest: Key)
    requires |b| == U64_SIZE && |c| == U64_SIZE
    ensures (k + (b + c + rest))[..|k|] == k && (k + (b + c + rest))[|k|..] == b + c + rest
    ensures var tail := b + c + rest;
            tail[..U64_SIZE] == b && tail[U64_SIZE..2 * U64_SIZE] == c && tail[2 * U64_SIZE..] == rest
  {
  }

  lemma {:induction false} RecordRoundTrip(r: Record, rest: Key)
    requires Fits(r)
    ensures DecodeRecord(EncodeRecord(r) + rest) == Ok((r, rest))
  {
    var a, b, c := EncodeUint(|r.key|, U64_SIZE), EncodeUint(r.first, U64_SIZE), EncodeUint(r.second, U64_SIZE);
    UintRoundTrip(|r.key|, U64_SIZE);
    UintRoundTrip(r.first, U64_SIZE);
    UintRoundTrip(r.second, U64_SIZE);
    Slices(a, r.key, b, c, rest);
    TailSlices(r.key, b, c, rest);
  }

  /** Eight bytes of key length, the key, and eight bytes for each of the two numbers. */
  lemma {:induction false} RecordLayout(r: Record)
    requires Fits(r)
    ensures var buf, n := EncodeRecord(r), |r.key|;
            && |buf| == n + 24
            && DecodeUint(buf[..8]) == n && buf[8..8 + n] == r.key
            && DecodeUint(buf[8 + n..16 + n]) == r.first && DecodeUint(buf[16 + n..]) == r.second
  {
    var a, b, c := EncodeUint(|r.key|, 8), EncodeUint(r.first, 8), EncodeUint(r.second, 8);
    var buf, n := EncodeRecord(r), |r.key|;
    UintRoundTrip(n, 8);
    UintRoundTrip(r.first, 8);
    UintRoundTrip(r.second, 8);
    assert buf == a + r.key + b + c;
    assert buf[..8] == a && buf[8..8 + n] == r.key && buf[8 + n..16 + n] == b && buf[16 + n..] == c;
  }

  lemma {:induction false} RecordCanonical(buf: Key)
    requires DecodeRecord(buf).Ok?
    ensures var (r, rest) := DecodeRecord(buf).value; Fits(r) && buf == EncodeRecord(r) + rest
  {
    var (r, rest) := DecodeRecord(buf).value;
    var tail := buf[U64_SIZE..][|r.key|..];
    var a, b, c := buf[..U64_SIZE], tail[..U64_SIZE], tail[U64_SIZE..2 * U64_SIZE];
    UintCanonical(a);
    UintCanonical(b);
    UintCanonical(c);
    assert tail == b + c + rest;
    assert buf == a + r.key + tail;
  }

  ghost predicate AllFit(rs: seq<Record>) {
    forall i | 0 <= i < |rs| :: Fits(rs[i])
  }

  lemma {:induction false} EncodedDecodes(rs: seq<Record>)
    requires AllFit(rs)
    ensures DecodeRecords(EncodeRecords(rs)) == Ok(rs)
    decreases |rs|
  {
    if rs != [] {
      RecordRoundTrip(rs[0], EncodeRecords(rs[1..]));
      EncodedDecodes(rs[1..]);
      assert rs == [rs[0]] + rs[1..];
    }
  }

  lemma {:induction false} DecodedEncodes(buf: Key)
    requires DecodeRecords(buf).Ok?
    ensures AllFit(DecodeRecords(buf).value) && EncodeRecords(DecodeRecords(buf).value) == buf
    decreases |buf|
  {
    if buf != [] {
      RecordCanonical(buf);
      var (r, rest) := DecodeRecord(buf).value;
      DecodedEncodes(rest);
      var rs := DecodeRecords(rest).value;
      assert ([r] + rs)[1..] == rs;
    }
  }

  /** Decoding a buffer yields a list of records if and only if the buffer is that list encoded. */
  lemma {:induction false} RecordsRoundTrip(buf: Key, rs: seq<Record>)
    ensures DecodeRecords(buf) == Ok(rs) <==> AllFit(rs) && buf == EncodeRecords(rs)
  {
    if DecodeRecords(buf) == Ok(rs) {
      DecodedEncodes(buf);
    }
    if AllFit(rs) {
      EncodedDecodes(rs);
    }
  }

  /** Appends record after record to a buffer. */
  method EncodeBuffer(rs: seq<Record>) returns (buf: Key)
    ensures buf == EncodeRecords(rs)
  {
    buf := [];
    var i := 0;
    while i < |rs|
      invariant 0 <= i <= |rs|
      invariant buf + EncodeRecords(rs[i..]) == EncodeRecords(rs)
    {
      ghost var before, rest := buf, EncodeRecords(rs[i + 1..]);
      buf := buf + EncodeUint(|rs[i].key|, U64_SIZE);
      buf := buf + rs[i].key;
      buf := buf + EncodeUint(rs[i].first, U64_SIZE);
      buf := buf + EncodeUint(rs[i].second, U64_SIZE);
      assert buf == before + EncodeRecord(rs[i]);
      assert EncodeRecords(rs[i..]) == EncodeRecord(rs[i]) + rest by {
        assert rs[i..][1..] == rs[i + 1..];
      }
      Associate(before, EncodeRecord(rs[i]), rest);
      i := i + 1;
    }
  }

  /** Consumes records from a buffer until it is empty or a record is cut short. */
  method DecodeBuffer(bytes: Key) returns (r: Result<seq<Record>>)
    ensures r == DecodeRecords(bytes)
  {
    var buf, rs := bytes, [];
    PrependNothing(DecodeRecords(bytes));
    while buf != []
      invariant Prepend(rs, DecodeRecords(buf)) == DecodeRecords(bytes)
      decreases |buf|
    {
      match DecodeRecord(buf)
      case Err(e) => return Err(e);
      case Ok((record, rest)) =>
        if DecodeRecords(rest).Ok? {
          Associate(rs, [record], DecodeRecords(rest).value);
        }
        rs, buf := rs + [record], rest;
    }
    r := Ok(rs);
    assert rs + [] == rs;
  }

  lemma {:induction false} PrependNothing(r: Result<seq<Record>>)
    ensures Prepend([], r) == r
  {
    if r.Ok? {
      assert [] + r.value == r.value;
    }
  }

  function Prepend(rs: seq<Record>, r: Result<seq<Record>>): Result<seq<Record>> {
    match r
    case Ok(more) => Ok(rs + more)
    case Err(e) => Err(e)
  }

  // ---------- index handles ----------

  datatype Handle = Handle(size: nat, offset: nat)
  type Handles = map<Key, Handle>

  /** The keys of an ordered map, in order. */
  ghost function InOrder(keys: set<Key>): seq<Key> {
    Sort(Enumerate(keys), LessEq)
  }

  ghost function HandleRecords(m: Handles, keys: seq<Key>): seq<Record>
    requires forall i | 0 <= i < |keys| :: keys[i] in m
  {
    seq(|keys|, i requires 0 <= i < |keys| => Record(keys[i], m[keys[i]].size, m[keys[i]].offset))
  }

  lemma {:induction false} InOrderHolds(keys: set<Key>, k: Key)
    ensures k in InOrder(keys) <==> k in keys
  {
    var s := Enumerate(keys);
    EnumerateLists(keys);
    SortKeepsElements(s, LessEq);
    assert k in multiset(InOrder(keys)) <==> k in multiset(s);
  }

  lemma {:induction false} InOrderAscends(keys: set<Key>, i: nat, j: nat)
    requires i < j < |InOrder(keys)|
    ensures Less(InOrder(keys)[i], InOrder(keys)[j])
  {
    var s, t := Enumerate(keys), InOrder(keys);
    Bytes.Order();
    SortIsSorted(s, LessEq);
    EnumerateLists(keys);
    SortKeepsElements(s, LessEq);
    DistinctRearranged(s, t);
    assert LessEq(t[i], t[j]) && t[i] != t[j];
  }

  lemma {:induction false} InOrderLists(keys: set<Key>)
    ensures forall k :: k in InOrder(keys) <==> k in keys
    ensures forall i, j | 0 <= i < j < |InOrder(keys)| :: Less(InOrder(keys)[i], InOrder(keys)[j])
  {
    forall k ensures k in InOrder(keys) <==> k in keys {
      InOrderHolds(keys, k);
    }
    forall i, j | 0 <= i < j < |InOrder(keys)| ensures Less(InOrder(keys)[i], InOrder(keys)[j]) {
      InOrderAscends(keys, i, j);
    }
  }

  /** Records into a map: a repeated key keeps its last handle. */
  function ToHandles(rs: seq<Record>): Handles {
    if rs == [] then map[]
    else
      var n := |rs| - 1;
      ToHandles(rs[..n])[rs[n].key := Handle(rs[n].first, rs[n].second)]
  }

  function DecodeHandles(buf: Key): Result<Handles> {
    match DecodeRecords(buf)
    case Err(e) => Err(e)
    case Ok(rs) => Ok(ToHandles(rs))
  }

  ghost function EncodeHandles(m: Handles): Key {
    InOrderLists(m.Keys);
    EncodeRecords(HandleRecords(m, InOrder(m.Keys)))
  }

  ghost predicate HandlesFit(m: Handles) {
    forall k | k in m :: IsU64(|k|) && IsU64(m[k].size) && IsU64(m[k].offset)
  }

  lemma {:induction false} ToHandlesContents(m: Handles, keys: seq<Key>)
    requires forall i | 0 <= i < |keys| :: keys[i] in m
    ensures ToHandles(HandleRecords(m, keys)) == map k | k in m && k in keys :: m[k]
    decreases |keys|
  {
    if keys != [] {
      var n := |keys| - 1;
      assert HandleRecords(m, keys)[..n] == HandleRecords(m, keys[..n]);
      ToHandlesContents(m, keys[..n]);
      assert keys == keys[..n] + [keys[n]];
    }
  }

  /** Decoding the encoded handles of a map returns the map. */
  lemma {:induction false} HandlesRoundTrip(m: Handles)
    requires HandlesFit(m)
    ensures DecodeHandles(EncodeHandles(m)) == Ok(m)
  {
    var keys := InOrder(m.Keys);
    InOrderLists(m.Keys);
    var rs := HandleRecords(m, keys);
    HandleRecordsFit(m, keys);
    RecordsRoundTrip(EncodeRecords(rs), rs);
    ToHandlesContents(m, keys);
    assert (map k | k in m && k in keys :: m[k]) == m;
  }

  lemma {:induction false} HandleRecordsFit(m: Handles, keys: seq<Key>)
    requires HandlesFit(m) && forall i | 0 <= i < |keys| :: keys[i] in m
    ensures forall i | 0 <= i < |HandleRecords(m, keys)| :: Fits(HandleRecords(m, keys)[i])
  {
  }

  method LeastKey(ghost keys: seq<Key>, ghost n: nat, todo: set<Key>) returns (k: Key)
    requires n <= |keys| && todo != {} && Remain(keys, n, todo)
    requires forall i, j | 0 <= i < j < |keys| :: Less(keys[i], keys[j])
    ensures n < |keys| && k == keys[n] && k in todo && Remain(keys, n + 1, todo - {k})
  {
    LeastIsNext(keys, n, todo);
    k :| k in todo && forall j | j in todo :: LessEq(k, j);
    NextIsLeast(keys, n, todo, k);
  }

  /** The handles of a map in key order, the least remaining key first. */
  method ListHandles(m: Handles, ghost keys: seq<Key>) returns (rs: seq<Record>)
    requires forall k :: k in keys <==> k in m
    requires forall i, j | 0 <= i < j < |keys| :: Less(keys[i], keys[j])
    ensures rs == HandleRecords(m, keys)
  {
    rs := [];
    var todo := m.Keys;
    assert keys[0..] == keys;
    while todo != {}
      invariant |rs| <= |keys| && Remain(keys, |rs|, todo) && todo <= m.Keys
      invariant forall i | 0 <= i < |rs| :: rs[i] == Record(keys[i], m[keys[i]].size, m[keys[i]].offset)
      decreases todo
    {
      var k := LeastKey(keys, |rs|, todo);
      rs := rs + [Record(k, m[k].size, m[k].offset)];
      todo := todo - {k};
    }
    if |rs| < |keys| {
      SomeLeft(keys, |rs|, todo);
      assert false;
    }
  }

  /** Appends one record per handle, in key order. */
  method EncodeHandlesBuffer(m: Handles) returns (buf: Key)
    ensures buf == EncodeHandles(m)
  {
    InOrderLists(m.Keys);
    var rs := ListHandles(m, InOrder(m.Keys));
    buf := EncodeBuffer(rs);
  }

  /** The keys from position n on are still to do. */
  ghost predicate Remain(keys: seq<Key>, n: nat, todo: set<Key>)
    requires n <= |keys|
  {
    forall k :: k in todo <==> k in keys[n..]
  }

  lemma {:induction false} SomeLeft(keys: seq<Key>, n: nat, todo: set<Key>)
    requires n < |keys| && Remain(keys, n, todo)
    ensures todo != {}
  {
    assert keys[n] == keys[n..][0];
    assert keys[n] in todo;
  }

  lemma {:induction false} LeastIsNext(keys: seq<Key>, n: nat, todo: set<Key>)
    requires n <= |keys| && todo != {} && Remain(keys, n, todo)
    requires forall i, j | 0 <= i < j < |keys| :: Less(keys[i], keys[j])
    ensures n < |keys| && keys[n] in todo && forall j | j in todo :: LessEq(keys[n], j)
  {
  }

  lemma {:induction false} NextIsLeast(keys: seq<Key>, n: nat, todo: set<Key>, k: Key)
    requires n <= |keys| && Remain(keys, n, todo)
    requires forall i, j | 0 <= i < j < |keys| :: Less(keys[i], keys[j])
    requires k in todo && forall j | j in todo :: LessEq(k, j)
    ensures n < |keys| && k == keys[n]
    ensures Remain(keys, n + 1, todo - {k})
  {
    Bytes.Order();
    LeastIsNext(keys, n, todo);
    assert LessEq(k, keys[n]) && LessEq(keys[n], k);
    assert keys[n..] == [keys[n]] + keys[n + 1..];
    forall i | n < i < |keys| ensures keys[i] != keys[n] {
      assert Less(keys[n], keys[i]);
    }
  }

  /** Inserts each decoded record into a map. */
  method DecodeHandlesBuffer(bytes: Key) returns (r: Result<Handles>)
    ensures r == DecodeHandles(bytes)
  {
    var buf, m := bytes, map[];
    ghost var rs: seq<Record> := [];
    PrependNothing(DecodeRecords(bytes));
    while buf != []
      invariant Prepend(rs, DecodeRecords(buf)) == DecodeRecords(bytes)
      invariant m == ToHandles(rs)
      decreases |buf|
    {
      match DecodeRecord(buf)
      case Err(e) => return Err(e);
      case Ok((record, rest)) =>
        if DecodeRecords(rest).Ok? {
          Associate(rs, [record], DecodeRecords(rest).value);
        }
        assert (rs + [record])[..|rs|] == rs;
        m, buf := m[record.key := Handle(record.first, record.second)], rest;
        rs := rs + [record];
    }
    r := Ok(m);
    assert rs + [] == rs;
  }

  // ---------- properties by name ----------

  type UserProperties = map<string, Key>

  const PROP_TOTAL_SIZE := "edb.total_size"
  const PROP_SIZE_INDEX := "edb.size_index"
  const PROP_RANGE_INDEX := "edb.cone_index"

  datatype SizeProperties = SizeProperties(totalSize: nat, handles: Handles)

  function Lookup(props: UserProperties, name: string): Result<Key> {
    if name in props then Ok(props[name]) else Err(KeyNotFound)
  }

  function PointRecords(points: seq<Point>): seq<Record> {
    seq(|points|, i requires 0 <= i < |points| => Record(points[i].key, points[i].offsets.size, points[i].offsets.keys))
  }

  function RecordPoints(rs: seq<Record>): seq<Point> {
    seq(|rs|, i requires 0 <= i < |rs| => Point(rs[i].key, Offsets(rs[i].first, rs[i].second)))
  }

  function EncodeRange(points: seq<Point>): UserProperties {
    map[PROP_RANGE_INDEX := EncodeRecords(PointRecords(points))]
  }

  function DecodeRange(props: UserProperties): Result<seq<Point>> {
    match Lookup(props, PROP_RANGE_INDEX)
    case Err(e) => Err(e)
    case Ok(buf) =>
      match DecodeRecords(buf)
      case Err(e) => Err(e)
      case Ok(rs) => Ok(RecordPoints(rs))
  }

  ghost function EncodeSize(p: SizeProperties): UserProperties {
    map[PROP_TOTAL_SIZE := EncodeUint(p.totalSize, U64_SIZE), PROP_SIZE_INDEX := EncodeHandles(p.handles)]
  }

  function DecodeSize(props: UserProperties): Result<SizeProperties> {
    match Lookup(props, PROP_TOTAL_SIZE)
    case Err(e) => Err(e)
    case Ok(total) =>
      if |total| < U64_SIZE then Err(UnexpectedEof)
      else
        match Lookup(props, PROP_SIZE_INDEX)
        case Err(e) => Err(e)
        case Ok(index) =>
          match DecodeHandles(index)
          case Err(e) => Err(e)
          case Ok(handles) => Ok(SizeProperties(DecodeUint(total[..U64_SIZE]), handles))
  }

  /** The older form as points: one per handle, in key order, its offset as the size. */
  ghost function FromSize(p: SizeProperties): seq<Point> {
    InOrderLists(p.handles.Keys);
    var keys := InOrder(p.handles.Keys);
    seq(|keys|, i requires 0 <= i < |keys| => Point(keys[i], Offsets(p.handles[keys[i]].offset, 0)))
  }

  ghost function Decode(props: UserProperties): Result<seq<Point>> {
    match DecodeRange(props)
    case Ok(points) => Ok(points)
    case Err(_) =>
      match DecodeSize(props)
      case Err(e) => Err(e)
      case Ok(p) => Ok(FromSize(p))
  }

  ghost predicate PointsFit(points: seq<Point>) {
    forall i | 0 <= i < |points| ::
        IsU64(|points[i].key|) && IsU64(points[i].offsets.size) && IsU64(points[i].offsets.keys)
  }

  /** Decoding encoded range properties returns them unchanged. */
  lemma {:induction false} RangeRoundTrip(points: seq<Point>)
    requires PointsFit(points)
    ensures Decode(EncodeRange(points)) == Ok(points)
  {
    var rs := PointRecords(points);
    RecordsRoundTrip(EncodeRecords(rs), rs);
    assert RecordPoints(rs) == points;
  }

  lemma {:induction false} EncodeConcat(rs: seq<Record>, ss: seq<Record>)
    ensures EncodeRecords(rs + ss) == EncodeRecords(rs) + EncodeRecords(ss)
    decreases |rs|
  {
    if rs == [] {
      assert rs + ss == ss;
    } else {
      EncodeConcat(rs[1..], ss);
      assert (rs + ss)[0] == rs[0] && (rs + ss)[1..] == rs[1..] + ss;
      Associate(EncodeRecord(rs[0]), EncodeRecords(rs[1..]), EncodeRecords(ss));
    }
  }

  lemma {:induction false} OneRecord(r: Record)
    ensures EncodeRecords([r]) == EncodeRecord(r)
  {
    assert [r][1..] == [];
    assert EncodeRecord(r) + [] == EncodeRecord(r);
  }

  /** Range properties are one buffer under one name: point after point, each its key, then its size
      and then its number of keys. */
  lemma {:induction false} RangeLayout(points: seq<Point>, p: Point)
    requires PointsFit(points + [p])
    ensures EncodeRange(points + [p]).Keys == {"edb.cone_index"}
    ensures var name, n := "edb.cone_index", |p.key|;
            var before, buf := EncodeRange(points)[name], EncodeRange(points + [p])[name];
            && |buf| == |before| + n + 24 && before <= buf
            && var tail := buf[|before|..];
               && DecodeUint(tail[..8]) == n && tail[8..8 + n] == p.key
               && DecodeUint(tail[8 + n..16 + n]) == p.offsets.size && DecodeUint(tail[16 + n..]) == p.offsets.keys
  {
    var r := Record(p.key, p.offsets.size, p.offsets.keys);
    assert (points + [p])[|points|] == p;
    assert PointRecords(points + [p]) == PointRecords(points) + [r];
    EncodeConcat(PointRecords(points), [r]);
    OneRecord(r);
    RecordLayout(r);
  }

  /** Size properties: the total and the handles, under a name each; a handle is its key, then its size
      and then its offset. */
  lemma {:induction false} SizeLayout(total: nat, k: Key, h: Handle)
    requires IsU64(total) && HandlesFit(map[k := h])
    ensures var props, n := EncodeSize(SizeProperties(total, map[k := h])), |k|;
            && props.Keys == {"edb.total_size", "edb.size_index"}
            && |props["edb.total_size"]| == 8 && DecodeUint(props["edb.total_size"]) == total
            && var buf := props["edb.size_index"];
               && |buf| == n + 24 && DecodeUint(buf[..8]) == n && buf[8..8 + n] == k
               && DecodeUint(buf[8 + n..16 + n]) == h.size && DecodeUint(buf[16 + n..]) == h.offset
  {
    var m, r := map[k := h], Record(k, h.size, h.offset);
    InOrderLists(m.Keys);
    var keys := InOrder(m.Keys);
    assert keys == [k] by {
      assert k in keys;
      OrderedCount(keys, m.Keys);
      assert m.Keys == {k};
    }
    assert m[k] == h && HandleRecords(m, keys) == [r];
    OneRecord(r);
    RecordLayout(r);
    UintRoundTrip(total, 8);
  }

  lemma {:induction false} SizeRoundTrip(p: SizeProperties)
    requires IsU64(p.totalSize) && HandlesFit(p.handles)
    ensures DecodeSize(EncodeSize(p)) == Ok(p)
  {
    var total := EncodeUint(p.totalSize, U64_SIZE);
    HandlesRoundTrip(p.handles);
    UintRoundTrip(p.totalSize, U64_SIZE);
    assert total[..U64_SIZE] == total;
  }

  lemma {:induction false} LegacyPoints(p: SizeProperties)
    ensures AscendingPoints(FromSize(p)) && |FromSize(p)| == |p.handles|
    ensures forall k | k in p.handles :: Point(k, Offsets(p.handles[k].offset, 0)) in FromSize(p)
  {
    var keys := InOrder(p.handles.Keys);
    InOrderLists(p.handles.Keys);
    OrderedCount(keys, p.handles.Keys);
    forall k | k in p.handles ensures Point(k, Offsets(p.handles[k].offset, 0)) in FromSize(p) {
      var i :| 0 <= i < |keys| && keys[i] == k;
      assert FromSize(p)[i] == Point(k, Offsets(p.handles[k].offset, 0));
    }
  }

  /** Properties written in the older form fall back to one ascending point per handle. */
  lemma {:induction false} LegacyFallsBack(p: SizeProperties)
    requires IsU64(p.totalSize) && HandlesFit(p.handles)
    ensures Decode(EncodeSize(p)) == Ok(FromSize(p))
    ensures AscendingPoints(FromSize(p)) && |FromSize(p)| == |p.handles|
    ensures forall k | k in p.handles :: Point(k, Offsets(p.handles[k].offset, 0)) in FromSize(p)
  {
    SizeRoundTrip(p);
    LegacyPoints(p);
    assert DecodeRange(EncodeSize(p)).Err?;
  }

  lemma {:induction false} OrderedCount(keys: seq<Key>, s: set<Key>)
    requires forall k :: k in keys <==> k in s
    requires forall i, j | 0 <= i < j < |keys| :: Less(keys[i], keys[j])
    ensures |keys| == |s|
    decreases |keys|
  {
    Bytes.Order();
    if keys == [] {
      assert s == {};
    } else {
      var n := |keys| - 1;
      assert keys[n] in s;
      forall k ensures k in keys[..n] <==> k in s - {keys[n]} {
        assert k in keys <==> k in keys[..n] || k == keys[n];
      }
      OrderedCount(keys[..n], s - {keys[n]});
    }
  }
}
