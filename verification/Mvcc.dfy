/** The MVCC property collector: row, version and timestamp counts of a stream of entries grouped by
    row, and a sparse index of the rows. */
module Mvcc {
  import opened Options
  import opened Bytes
  import opened Sorting
  import opened RangeCodec

  const MAX_TS := 0xFFFF_FFFF_FFFF_FFFF
  const ROWS_INDEX_DISTANCE := 10000

  type Timestamp = t: int | 0 <= t <= MAX_TS

  datatype EntryKind = PutEntry | DeleteEntry | OtherEntry
  datatype WriteKind = WritePut | WriteDelete | WriteOther
  datatype RowKey = RowKey(row: Key, ts: Timestamp)

  // `split` is absent when the key carries no timestamp, `write` when the value does not parse.
  datatype Entry = Entry(kind: EntryKind, valid: bool, split: Option<RowKey>, write: Option<WriteKind>)

  datatype Version = Version(row: Key, write: Option<WriteKind>)

  // The current row and the counts of rows and versions.
  datatype Run = Run(rows: nat, versions: nat, maxRowVersions: nat, lastRow: Key, rowVersions: nat)
  datatype Writes = Writes(puts: nat, deletes: nat)
  datatype Index = Index(current: Handle, handles: Handles)

  // What depends on the versions alone.
  datatype Tally = Tally(run: Run, writes: Writes, index: Index)

  datatype State = State(minTs: Timestamp, maxTs: Timestamp, errors: nat, tally: Tally)

  const EMPTY_RUN := Run(0, 0, 0, [], 0)
  const EMPTY := Tally(EMPTY_RUN, Writes(0, 0), Index(Handle(0, 0), map[]))
  const INITIAL := State(MAX_TS, 0, 0, EMPTY)

  // ---------- one entry ----------

  function Min(a: Timestamp, b: Timestamp): Timestamp {
    if a <= b then a else b
  }

  function Max(a: int, b: int): int {
    if a >= b then a else b
  }

  function CountRow(r: Run, row: Key): Run {
    var n := if row == r.lastRow then r.rowVersions + 1 else 1;
    Run(if row == r.lastRow then r.rows else r.rows + 1, r.versions + 1, Max(n, r.maxRowVersions), row, n)
  }

  function CountWrite(w: Writes, write: WriteKind): Writes {
    match write
    case WritePut => w.(puts := w.puts + 1)
    case WriteDelete => w.(deletes := w.deletes + 1)
    case WriteOther => w
  }

  /** One more row; the first and every ten-thousandth get a handle. */
  function IndexRow(x: Index, row: Key): Index {
    var h := Handle(x.current.size + 1, x.current.offset + 1);
    if h.offset == 1 || h.size >= ROWS_INDEX_DISTANCE
    then Index(Handle(0, h.offset), x.handles[row := h])
    else Index(h, x.handles)
  }

  function AddVersion(t: Tally, v: Version): Tally {
    var run := CountRow(t.run, v.row);
    if v.write.None? then Tally(run, t.writes, t.index)
    else Tally(run, CountWrite(t.writes, v.write.value),
               if run.rowVersions == 1 then IndexRow(t.index, v.row) else t.index)
  }

  function AddEntry(s: State, e: Entry): State {
    if e.kind.OtherEntry? then s
    else if !e.valid || e.split.None? then s.(errors := s.errors + 1)
    else
      var k := e.split.value;
      var s' := s.(minTs := Min(s.minTs, k.ts), maxTs := Max(s.maxTs, k.ts));
      if e.kind.DeleteEntry? then s'
      else s'.(tally := AddVersion(s.tally, Version(k.row, e.write)),
               errors := if e.write.None? then s.errors + 1 else s.errors)
  }

  function Finished(t: Tally): Index {
    if t.index.current.size > 0
    then t.index.(handles := t.index.handles[t.run.lastRow := t.index.current])
    else t.index
  }

  class Collector {
    var minTs: Timestamp
    var maxTs: Timestamp
    var rows: nat
    var puts: nat
    var deletes: nat
    var versions: nat
    var maxRowVersions: nat
    var lastRow: Key
    var errors: nat
    var rowVersions: nat
    var current: Handle
    var handles: Handles

    ghost function Model(): State
      reads this
    {
      State(minTs, maxTs, errors,
            Tally(Run(rows, versions, maxRowVersions, lastRow, rowVersions), Writes(puts, deletes),
                  Index(current, handles)))
    }

    constructor ()
      ensures Model() == INITIAL
    {
      minTs, maxTs := MAX_TS, 0;
      rows, puts, deletes, versions, maxRowVersions := 0, 0, 0, 0, 0;
      lastRow, errors, rowVersions, current, handles := [], 0, 0, Handle(0, 0), map[];
    }

    method Add(e: Entry)
      modifies this
      ensures Model() == AddEntry(old(Model()), e)
    {
      if e.kind != PutEntry && e.kind != DeleteEntry {
        return;
      }
      if !e.valid || e.split.None? {
        errors := errors + 1;
        return;
      }
      var k := e.split.value;
      minTs := Min(minTs, k.ts);
      maxTs := Max(maxTs, k.ts);
      if e.kind == DeleteEntry {
        return;
      }
      AddPut(k.row, e.write);
    }

    method AddPut(row: Key, write: Option<WriteKind>)
      modifies this
      ensures Model().tally == AddVersion(old(Model()).tally, Version(row, write))
      ensures minTs == old(minTs) && maxTs == old(maxTs)
      ensures errors == if write.None? then old(errors) + 1 else old(errors)
    {
      CountVersion(row);
      if write.None? {
        errors := errors + 1;
        return;
      }
      match write.value {
        case WritePut => puts := puts + 1;
        case WriteDelete => deletes := deletes + 1;
        case WriteOther =>
      }
      if rowVersions == 1 {
        AddRow();
      }
    }

    method CountVersion(row: Key)
      modifies this`versions, this`rows, this`rowVersions, this`lastRow, this`maxRowVersions
      ensures Model().tally.run == CountRow(old(Model()).tally.run, row)
    {
      versions := versions + 1;
      if row != lastRow {
        rows, rowVersions, lastRow := rows + 1, 1, row;
      } else {
        rowVersions := rowVersions + 1;
      }
      if rowVersions > maxRowVersions {
        maxRowVersions := rowVersions;
      }
    }

    method AddRow()
      modifies this`current, this`handles
      ensures Model().tally.index == IndexRow(old(Model()).tally.index, lastRow)
    {
      current := Handle(current.size + 1, current.offset + 1);
      if current.offset == 1 || current.size >= ROWS_INDEX_DISTANCE {
        handles := handles[lastRow := current];
        current := current.(size := 0);
      }
    }

    method Finish()
      modifies this
      ensures Model().tally == old(Model()).tally.(index := Finished(old(Model()).tally))
      ensures minTs == old(minTs) && maxTs == old(maxTs) && errors == old(errors)
    {
      if current.size > 0 {
        handles := handles[lastRow := current];
      }
    }
  }

  // ---------- what a stream contains ----------

  ghost function Feed(es: seq<Entry>): State {
    if es == [] then INITIAL else AddEntry(Feed(es[..|es| - 1]), es[|es| - 1])
  }

  ghost function Tallied(vs: seq<Version>): Tally {
    if vs == [] then EMPTY else AddVersion(Tallied(vs[..|vs| - 1]), vs[|vs| - 1])
  }

  ghost function Runs(vs: seq<Version>): Run {
    if vs == [] then EMPTY_RUN else CountRow(Runs(vs[..|vs| - 1]), vs[|vs| - 1].row)
  }

  ghost predicate Stamped(e: Entry) {
    !e.kind.OtherEntry? && e.valid && e.split.Some?
  }

  ghost predicate Erring(e: Entry) {
    !e.kind.OtherEntry? && (!e.valid || e.split.None? || (e.kind.PutEntry? && e.write.None?))
  }

  ghost function Versions(es: seq<Entry>): seq<Version> {
    if es == [] then []
    else
      var n := |es| - 1;
      Versions(es[..n]) +
      if Stamped(es[n]) && es[n].kind.PutEntry? then [Version(es[n].split.value.row, es[n].write)] else []
  }

  ghost function Stamps(es: seq<Entry>): set<Timestamp> {
    if es == [] then {}
    else
      var n := |es| - 1;
      if Stamped(es[n]) then Stamps(es[..n]) + {es[n].split.value.ts} else Stamps(es[..n])
  }

  ghost function Errors(es: seq<Entry>): multiset<Entry> {
    if es == [] then multiset{}
    else
      var n := |es| - 1;
      Errors(es[..n]) + if Erring(es[n]) then multiset{es[n]} else multiset{}
  }

  ghost function RowSet(vs: seq<Version>): set<Key> {
    if vs == [] then {} else RowSet(vs[..|vs| - 1]) + {vs[|vs| - 1].row}
  }

  ghost function Count(vs: seq<Version>, row: Key): nat {
    if vs == [] then 0 else Count(vs[..|vs| - 1], row) + if vs[|vs| - 1].row == row then 1 else 0
  }

  ghost function Wrote(vs: seq<Version>, write: WriteKind): nat {
    if vs == [] then 0 else Wrote(vs[..|vs| - 1], write) + if vs[|vs| - 1].write == Some(write) then 1 else 0
  }

  /** The write counts are those of the versions whose value parses. */
  ghost predicate Tells(w: Writes, vs: seq<Version>) {
    w.puts == Wrote(vs, WritePut) && w.deletes == Wrote(vs, WriteDelete)
  }

  /** Versions of one row come together. */
  ghost predicate Grouped(vs: seq<Version>) {
    forall i, j, k | 0 <= i < j < k < |vs| && vs[i].row == vs[k].row :: vs[i].row == vs[j].row
  }

  ghost predicate Ascending(vs: seq<Version>) {
    forall i, j | 0 <= i < j < |vs| :: LessEq(vs[i].row, vs[j].row)
  }

  lemma {:induction false} AscendingIsGrouped(vs: seq<Version>)
    requires Ascending(vs)
    ensures Grouped(vs)
  {
    Bytes.Order();
    forall i, j, k | 0 <= i < j < k < |vs| && vs[i].row == vs[k].row ensures vs[i].row == vs[j].row {
      assert LessEq(vs[i].row, vs[j].row) && LessEq(vs[j].row, vs[k].row);
    }
  }

  // ---------- counts ----------

  /** The tally sees exactly the versions of the stream, and errors are its erring entries. */
  lemma {:induction false} FeedTally(es: seq<Entry>)
    ensures Feed(es).tally == Tallied(Versions(es))
    ensures Feed(es).errors == |Errors(es)|
    decreases |es|
  {
    if es != [] {
      var n := |es| - 1;
      FeedTally(es[..n]);
      var vs := Versions(es);
      if vs != Versions(es[..n]) {
        assert vs[..|vs| - 1] == Versions(es[..n]);
      }
    }
  }

  /** The timestamps are the least and the greatest of the stream, or the initial ones if it has none. */
  lemma {:induction false} FeedStamps(es: seq<Entry>)
    ensures forall ts | ts in Stamps(es) :: Feed(es).minTs <= ts <= Feed(es).maxTs
    ensures Stamps(es) == {} ==> Feed(es).minTs == 0xFFFF_FFFF_FFFF_FFFF && Feed(es).maxTs == 0
    ensures Stamps(es) != {} ==> Feed(es).minTs in Stamps(es) && Feed(es).maxTs in Stamps(es)
    decreases |es|
  {
    if es != [] {
      var n := |es| - 1;
      FeedStamps(es[..n]);
      if Stamped(es[n]) {
        StampsGrow(Stamps(es[..n]), es[n].split.value.ts, Feed(es[..n]).minTs, Feed(es[..n]).maxTs);
      }
    }
  }

  lemma {:induction false} StampsGrow(stamps: set<Timestamp>, ts: Timestamp, least: Timestamp, most: Timestamp)
    requires forall x | x in stamps :: least <= x <= most
    requires stamps == {} ==> least == MAX_TS && most == 0
    requires stamps != {} ==> least in stamps && most in stamps
    ensures forall x | x in stamps + {ts} :: Min(least, ts) <= x <= Max(most, ts)
    ensures Min(least, ts) in stamps + {ts} && Max(most, ts) in stamps + {ts}
  {
  }

  lemma {:induction false} RowSetMembers(vs: seq<Version>, row: Key)
    ensures row in RowSet(vs) <==> exists i :: 0 <= i < |vs| && vs[i].row == row
    ensures row in RowSet(vs) <==> Count(vs, row) > 0
    decreases |vs|
  {
    if vs != [] {
      var n := |vs| - 1;
      RowSetMembers(vs[..n], row);
      if vs[n].row != row && row in RowSet(vs[..n]) {
        var i :| 0 <= i < n && vs[..n][i].row == row;
        assert vs[i].row == row;
      }
    }
  }

  /** A version repeats a row exactly when that row is the last one. */
  lemma {:induction false} RepeatsLast(vs: seq<Version>)
    requires |vs| >= 2 && Grouped(vs)
    ensures var n := |vs| - 1; vs[n].row in RowSet(vs[..n]) <==> vs[n].row == vs[n - 1].row
  {
    var n := |vs| - 1;
    RowSetMembers(vs[..n], vs[n].row);
    assert vs[..n][n - 1] == vs[n - 1];
  }

  lemma {:induction false} TallyRuns(vs: seq<Version>)
    ensures Tallied(vs).run == Runs(vs)
    ensures Tells(Tallied(vs).writes, vs)
    decreases |vs|
  {
    if vs != [] {
      TallyRuns(vs[..|vs| - 1]);
    }
  }

  lemma {:induction false} LastRow(vs: seq<Version>)
    ensures Runs(vs).lastRow == if vs == [] then [] else vs[|vs| - 1].row
    ensures Runs(vs).versions == |vs|
    decreases |vs|
  {
    if vs != [] {
      LastRow(vs[..|vs| - 1]);
    }
  }

  /** Counting by comparison with the last row alone: the running count is the last row's, and the
      row total is right but for an empty row that comes first. */
  lemma {:induction false} RunCounts(vs: seq<Version>)
    requires Grouped(vs)
    ensures Runs(vs).rowVersions == Count(vs, Runs(vs).lastRow)
    ensures Runs(vs).rows == |RowSet(vs)| - if vs != [] && vs[0].row == [] then 1 else 0
    decreases |vs|
  {
    if vs != [] {
      var n := |vs| - 1;
      RunCounts(vs[..n]);
      LastRow(vs[..n]);
      RowSetMembers(vs[..n], vs[n].row);
      if n > 0 {
        RepeatsLast(vs);
      }
    }
  }

  /** The maximum is reached by some row and by none exceeded. */
  lemma {:induction false} RunMaximum(vs: seq<Version>)
    requires Grouped(vs)
    ensures forall r :: Count(vs, r) <= Runs(vs).maxRowVersions
    ensures if vs == [] then Runs(vs).maxRowVersions == 0
            else exists r :: r in RowSet(vs) && Count(vs, r) == Runs(vs).maxRowVersions
    decreases |vs|
  {
    if vs != [] {
      var n := |vs| - 1;
      RunMaximum(vs[..n]);
      RunCounts(vs);
      var most := Runs(vs).maxRowVersions;
      assert most == Max(Count(vs, vs[n].row), Runs(vs[..n]).maxRowVersions);
      if most != Count(vs, vs[n].row) {
        var r :| r in RowSet(vs[..n]) && Count(vs[..n], r) == most;
        assert r in RowSet(vs) && Count(vs, r) == most;
      } else {
        assert vs[n].row in RowSet(vs);
      }
    }
  }

  /** The collector counts rows correctly exactly when the stream does not begin with an empty row. */
  lemma {:induction false} RowsCountedIff(es: seq<Entry>)
    requires Grouped(Versions(es))
    ensures Feed(es).tally.run.rows == |RowSet(Versions(es))| <==> Versions(es) == [] || Versions(es)[0].row != []
  {
    FeedTally(es);
    TallyRuns(Versions(es));
    RunCounts(Versions(es));
  }

  /** A stream of one version of the empty row counts no row. */
  lemma {:induction false} EmptyRowExample() returns (es: seq<Entry>)
    ensures Grouped(Versions(es)) && |RowSet(Versions(es))| == 1 && Feed(es).tally.run.rows == 0
  {
    es := [Entry(PutEntry, true, Some(RowKey([], 5)), Some(WritePut))];
    assert es[..0] == [];
    var vs := Versions(es);
    assert vs == [Version([], Some(WritePut))] && vs[..0] == [];
    assert RowSet(vs) == {[]};
    RowsCountedIff(es);
    FeedTally(es);
    TallyRuns(vs);
    RunCounts(vs);
  }

  // ---------- merging the properties of several files ----------

  function Merge(a: State, b: State): State {
    State(Min(a.minTs, b.minTs), Max(a.maxTs, b.maxTs), a.errors,
          a.tally.(run := MergeRuns(a.tally.run, b.tally.run),
                   writes := Writes(a.tally.writes.puts + b.tally.writes.puts,
                                    a.tally.writes.deletes + b.tally.writes.deletes)))
  }

  function MergeRuns(a: Run, b: Run): Run {
    a.(rows := a.rows + b.rows, versions := a.versions + b.versions,
       maxRowVersions := Max(a.maxRowVersions, b.maxRowVersions))
  }

  /** Merged properties are those of both streams together, when no row is in both. */
  lemma {:induction false} MergedCounts(a: seq<Entry>, b: seq<Entry>)
    requires Grouped(Versions(a)) && Grouped(Versions(b)) && RowSet(Versions(a)) !! RowSet(Versions(b))
    requires [] !in RowSet(Versions(a)) && [] !in RowSet(Versions(b))
    ensures var t, vs := Merge(Feed(a), Feed(b)).tally, Versions(a) + Versions(b);
            && t.run.rows == |RowSet(vs)| && t.run.versions == |vs|
            && Tells(t.writes, vs)
            && (forall r :: Count(vs, r) <= t.run.maxRowVersions)
            && (vs != [] ==> exists r :: r in RowSet(vs) && Count(vs, r) == t.run.maxRowVersions)
    ensures var m, stamps := Merge(Feed(a), Feed(b)), Stamps(a) + Stamps(b);
            && (forall ts | ts in stamps :: m.minTs <= ts <= m.maxTs)
            && (stamps != {} ==> m.minTs in stamps && m.maxTs in stamps)
  {
    MergedRuns(a, b);
    MergedWrites(a, b);
    MergedStamps(a, b);
  }

  lemma {:induction false} MergedRuns(a: seq<Entry>, b: seq<Entry>)
    requires Grouped(Versions(a)) && Grouped(Versions(b)) && RowSet(Versions(a)) !! RowSet(Versions(b))
    requires [] !in RowSet(Versions(a)) && [] !in RowSet(Versions(b))
    ensures var run, vs := Merge(Feed(a), Feed(b)).tally.run, Versions(a) + Versions(b);
            && run.rows == |RowSet(vs)| && run.versions == |vs|
            && (forall r :: Count(vs, r) <= run.maxRowVersions)
            && (vs != [] ==> exists r :: r in RowSet(vs) && Count(vs, r) == run.maxRowVersions)
  {
    var x, y := Versions(a), Versions(b);
    var run := Merge(Feed(a), Feed(b)).tally.run;
    FeedRuns(a);
    FeedRuns(b);
    DisjointRows(x, y);
    assert run == MergeRuns(Runs(x), Runs(y));
    assert run.maxRowVersions == Max(Runs(x).maxRowVersions, Runs(y).maxRowVersions);
    MergedMaximum(x, y);
  }

  lemma {:induction false} DisjointRows(x: seq<Version>, y: seq<Version>)
    requires RowSet(x) !! RowSet(y)
    ensures |RowSet(x + y)| == |RowSet(x)| + |RowSet(y)|
  {
    Concatenated(x, y, []);
  }

  /** The run counts of one stream without an empty row. */
  lemma {:induction false} FeedRuns(es: seq<Entry>)
    requires Grouped(Versions(es)) && [] !in RowSet(Versions(es))
    ensures var vs, run := Versions(es), Feed(es).tally.run;
            run == Runs(vs) && run.rows == |RowSet(vs)| && run.versions == |vs|
  {
    var vs := Versions(es);
    FeedTally(es);
    FirstNotEmpty(vs);
    TallyRuns(vs);
    RunCounts(vs);
    LastRow(vs);
  }

  /** Merged write counts are those of both streams together, whatever their rows. */
  lemma {:induction false} MergedWrites(a: seq<Entry>, b: seq<Entry>)
    ensures var w, vs := Merge(Feed(a), Feed(b)).tally.writes, Versions(a) + Versions(b);
            Tells(w, vs) && w.puts + w.deletes <= |vs|
  {
    FeedTells(a);
    FeedTells(b);
    WritesTogether(Feed(a).tally.writes, Feed(b).tally.writes, Versions(a), Versions(b));
  }

  lemma {:induction false} WritesTogether(u: Writes, v: Writes, x: seq<Version>, y: seq<Version>)
    requires Tells(u, x) && Tells(v, y)
    ensures Tells(Writes(u.puts + v.puts, u.deletes + v.deletes), x + y)
    ensures u.puts + v.puts + (u.deletes + v.deletes) <= |x + y|
  {
    WroteTogether(x, y, WritePut);
    WroteTogether(x, y, WriteDelete);
    WritesWithinVersions(x + y);
  }

  lemma {:induction false} FeedTells(es: seq<Entry>)
    ensures Tells(Feed(es).tally.writes, Versions(es))
  {
    FeedTally(es);
    TallyRuns(Versions(es));
  }

  /** Puts and deletes together never exceed the versions. */
  lemma {:induction false} WritesWithinVersions(vs: seq<Version>)
    ensures Wrote(vs, WritePut) + Wrote(vs, WriteDelete) <= |vs|
    decreases |vs|
  {
    if vs != [] {
      WritesWithinVersions(vs[..|vs| - 1]);
    }
  }

  lemma {:induction false} WroteTogether(x: seq<Version>, y: seq<Version>, write: WriteKind)
    ensures Wrote(x + y, write) == Wrote(x, write) + Wrote(y, write)
    decreases |y|
  {
    if y == [] {
      assert x + y == x;
    } else {
      var n := |y| - 1;
      assert (x + y)[..|x + y| - 1] == x + y[..n];
      WroteTogether(x, y[..n], write);
    }
  }

  /** Merged timestamps are the least and the greatest of both streams together, whatever their rows. */
  lemma {:induction false} MergedStamps(a: seq<Entry>, b: seq<Entry>)
    ensures var m, stamps := Merge(Feed(a), Feed(b)), Stamps(a) + Stamps(b);
            && (forall ts | ts in stamps :: m.minTs <= ts <= m.maxTs)
            && (stamps == {} ==> m.minTs == MAX_TS && m.maxTs == 0)
            && (stamps != {} ==> m.minTs in stamps && m.maxTs in stamps)
  {
    FeedStamps(a);
    FeedStamps(b);
  }

  lemma {:induction false} FirstNotEmpty(vs: seq<Version>)
    requires [] !in RowSet(vs)
    ensures vs != [] ==> vs[0].row != []
  {
    if vs != [] {
      RowSetMembers(vs, vs[0].row);
    }
  }

  lemma {:induction false} Concatenated(x: seq<Version>, y: seq<Version>, row: Key)
    ensures RowSet(x + y) == RowSet(x) + RowSet(y)
    ensures Count(x + y, row) == Count(x, row) + Count(y, row)
    decreases |y|
  {
    if y == [] {
      assert x + y == x;
    } else {
      var n := |y| - 1;
      assert (x + y)[..|x + y| - 1] == x + y[..n];
      Concatenated(x, y[..n], row);
    }
  }

  lemma {:induction false} MergedMaximum(x: seq<Version>, y: seq<Version>)
    requires Grouped(x) && Grouped(y) && RowSet(x) !! RowSet(y)
    ensures var most := Max(Runs(x).maxRowVersions, Runs(y).maxRowVersions);
            && (forall r :: Count(x + y, r) <= most)
            && (x + y != [] ==> exists r :: r in RowSet(x + y) && Count(x + y, r) == most)
  {
    var most := Max(Runs(x).maxRowVersions, Runs(y).maxRowVersions);
    RunMaximum(x);
    RunMaximum(y);
    forall r ensures Count(x + y, r) <= most {
      Concatenated(x, y, r);
      RowSetMembers(x, r);
      RowSetMembers(y, r);
    }
    if x != [] && Runs(x).maxRowVersions == most {
      var r :| r in RowSet(x) && Count(x, r) == most;
      Concatenated(x, y, r);
      RowSetMembers(y, r);
    } else if y != [] {
      var r :| r in RowSet(y) && Count(y, r) == Runs(y).maxRowVersions;
      Concatenated(x, y, r);
      RowSetMembers(x, r);
    }
  }

  // ---------- the row index ----------

  /** The rows whose first version parses, in order. */
  ghost function Indexed(vs: seq<Version>): seq<Key> {
    if vs == [] then []
    else
      var n := |vs| - 1;
      Indexed(vs[..n]) + if vs[n].write.Some? && vs[n].row !in RowSet(vs[..n]) then [vs[n].row] else []
  }

  /** How many of the rows lie at or before k. */
  ghost function UpTo(rows: seq<Key>, k: Key): nat {
    if rows == [] then 0
    else UpTo(rows[..|rows| - 1], k) + if LessEq(rows[|rows| - 1], k) then 1 else 0
  }

  ghost predicate StrictlyAscending(rows: seq<Key>) {
    forall i, j | 0 <= i < j < |rows| :: Less(rows[i], rows[j])
  }

  lemma {:induction false} IndexedRows(vs: seq<Version>)
    requires Ascending(vs)
    ensures forall r | r in Indexed(vs) :: r in RowSet(vs) && vs != [] && LessEq(r, vs[|vs| - 1].row)
    decreases |vs|
  {
    if vs != [] {
      var n := |vs| - 1;
      IndexedRows(vs[..n]);
      Bytes.Order();
      if n > 0 {
        assert LessEq(vs[n - 1].row, vs[n].row);
      }
    }
  }

  /** A row seen for the first time lies beyond every indexed one. */
  lemma {:induction false} IndexedBefore(vs: seq<Version>, row: Key)
    requires Ascending(vs) && row !in RowSet(vs) && (vs != [] ==> LessEq(vs[|vs| - 1].row, row))
    ensures forall r | r in Indexed(vs) :: Less(r, row)
  {
    IndexedRows(vs);
    Bytes.Order();
  }

  lemma {:induction false} UpToAll(rows: seq<Key>, k: Key)
    requires forall r | r in rows :: LessEq(r, k)
    ensures UpTo(rows, k) == |rows|
    decreases |rows|
  {
    if rows != [] {
      assert rows[|rows| - 1] in rows;
      UpToAll(rows[..|rows| - 1], k);
    }
  }

  lemma {:induction false} UpToGrows(rows: seq<Key>, row: Key, k: Key)
    requires Less(k, row)
    ensures UpTo(rows + [row], k) == UpTo(rows, k)
  {
    Bytes.Order();
    assert (rows + [row])[..|rows|] == rows;
  }

  ghost function KeyOrder(handles: Handles): (keys: seq<Key>)
    ensures StrictlyAscending(keys) && forall k :: k in keys <==> k in handles
  {
    InOrderLists(handles.Keys);
    InOrder(handles.Keys)
  }

  ghost function OffsetBefore(handles: Handles, i: nat): nat
    requires i <= |KeyOrder(handles)|
  {
    if i == 0 then 0 else handles[KeyOrder(handles)[i - 1]].offset
  }

  ghost function LastOffset(handles: Handles): nat {
    OffsetBefore(handles, |KeyOrder(handles)|)
  }

  /** The i-th handle in key order steps from the offset before it by its size. */
  ghost predicate Steps(handles: Handles, i: nat)
    requires i < |KeyOrder(handles)|
  {
    var h := handles[KeyOrder(handles)[i]];
    0 < h.size <= ROWS_INDEX_DISTANCE && h.offset == OffsetBefore(handles, i) + h.size
  }

  ghost predicate Telescopes(handles: Handles) {
    forall i | 0 <= i < |KeyOrder(handles)| :: Steps(handles, i)
  }

  /** Every handle's offset is the number of indexed rows up to its key. */
  ghost predicate CountsRows(handles: Handles, rows: seq<Key>) {
    forall k | k in handles :: handles[k].offset == UpTo(rows, k)
  }

  ghost predicate Indexes(x: Index, rows: seq<Key>) {
    && x.current.offset == |rows|
    && x.current.size < ROWS_INDEX_DISTANCE
    && Telescopes(x.handles)
    && LastOffset(x.handles) + x.current.size == x.current.offset
    && CountsRows(x.handles, rows)
    && forall k | k in x.handles :: k in rows
  }

  /** A key beyond all others is listed last. */
  lemma {:induction false} KeyAppends(handles: Handles, k: Key, h: Handle)
    requires forall x | x in handles :: Less(x, k)
    ensures KeyOrder(handles[k := h]) == KeyOrder(handles) + [k]
  {
    AscendingIsUnique(KeyOrder(handles[k := h]), KeyOrder(handles) + [k]);
  }

  lemma {:induction false} AscendingIsUnique(s: seq<Key>, t: seq<Key>)
    requires StrictlyAscending(s) && StrictlyAscending(t) && forall k :: k in s <==> k in t
    ensures s == t
  {
    Bytes.Order();
    DistinctSameMembers(s, t);
    SortedIsUnique(s, t, LessEq);
  }

  /** A handle put at a key beyond all others keeps the telescope. */
  lemma {:induction false} HandleAppends(handles: Handles, k: Key, h: Handle)
    requires forall x | x in handles :: Less(x, k)
    requires Telescopes(handles) && 0 < h.size <= ROWS_INDEX_DISTANCE && h.offset == LastOffset(handles) + h.size
    ensures Telescopes(handles[k := h]) && LastOffset(handles[k := h]) == h.offset
  {
    var handles' := handles[k := h];
    KeyAppends(handles, k, h);
    var keys, keys' := KeyOrder(handles), KeyOrder(handles');
    assert k !in handles by { Bytes.Order(); }
    forall i | 0 <= i < |keys'| ensures Steps(handles', i) {
      assert i > 0 ==> keys'[i - 1] == keys[i - 1] && keys[i - 1] in keys;
      if i < |keys| {
        assert Steps(handles, i) && keys[i] in keys;
      }
    }
  }

  lemma {:induction false} CountsAppend(handles: Handles, rows: seq<Key>, row: Key)
    requires CountsRows(handles, rows) && forall k | k in handles :: Less(k, row)
    ensures CountsRows(handles, rows + [row])
  {
    forall k | k in handles ensures handles[k].offset == UpTo(rows + [row], k) {
      UpToGrows(rows, row, k);
    }
  }

  lemma {:induction false} MarkedRowKeeps(x: Index, rows: seq<Key>, row: Key)
    requires Indexes(x, rows) && forall r | r in rows :: Less(r, row)
    ensures var h := Handle(x.current.size + 1, x.current.offset + 1);
            Indexes(Index(Handle(0, h.offset), x.handles[row := h]), rows + [row])
  {
    var h := Handle(x.current.size + 1, x.current.offset + 1);
    CountsAppend(x.handles, rows, row);
    HandleAppends(x.handles, row, h);
    UpToAll(rows + [row], row);
  }

  lemma {:induction false} UnmarkedRowKeeps(x: Index, rows: seq<Key>, row: Key)
    requires Indexes(x, rows) && forall r | r in rows :: Less(r, row)
    requires x.current.size + 1 < ROWS_INDEX_DISTANCE
    ensures Indexes(Index(Handle(x.current.size + 1, x.current.offset + 1), x.handles), rows + [row])
  {
    CountsAppend(x.handles, rows, row);
  }

  /** One more indexed row keeps the index. */
  lemma {:induction false} IndexRowKeeps(x: Index, rows: seq<Key>, row: Key)
    requires Indexes(x, rows) && forall r | r in rows :: Less(r, row)
    ensures Indexes(IndexRow(x, row), rows + [row])
  {
    if x.current.offset == 0 || x.current.size + 1 >= ROWS_INDEX_DISTANCE {
      MarkedRowKeeps(x, rows, row);
    } else {
      UnmarkedRowKeeps(x, rows, row);
    }
  }

  /** The index is right after every version. */
  lemma {:induction false} TallyIndexes(vs: seq<Version>)
    requires Ascending(vs)
    ensures Indexes(Tallied(vs).index, Indexed(vs))
    decreases |vs|
  {
    if vs == [] {
      NoHandles();
    } else {
      var n := |vs| - 1;
      TallyIndexes(vs[..n]);
      VersionIndexes(vs);
    }
  }

  lemma {:induction false} NoHandles()
    ensures |KeyOrder(map[])| == 0
  {
  }

  lemma {:induction false} VersionIndexes(vs: seq<Version>)
    requires vs != [] && Ascending(vs) && Indexes(Tallied(vs[..|vs| - 1]).index, Indexed(vs[..|vs| - 1]))
    ensures Indexes(Tallied(vs).index, Indexed(vs))
  {
    var n := |vs| - 1;
    TallyRuns(vs);
    FirstVersion(vs);
    if vs[n].row !in RowSet(vs[..n]) {
      IndexedBefore(vs[..n], vs[n].row);
    }
    AddVersionIndexes(Tallied(vs[..n]), vs[n], Indexed(vs[..n]));
  }

  lemma {:induction false} AddVersionIndexes(t: Tally, v: Version, rows: seq<Key>)
    requires Indexes(t.index, rows)
    requires CountRow(t.run, v.row).rowVersions == 1 ==> forall r | r in rows :: Less(r, v.row)
    ensures Indexes(AddVersion(t, v).index,
                    rows + if v.write.Some? && CountRow(t.run, v.row).rowVersions == 1 then [v.row] else [])
  {
    if v.write.Some? && CountRow(t.run, v.row).rowVersions == 1 {
      IndexRowKeeps(t.index, rows, v.row);
    } else {
      assert rows + [] == rows;
    }
  }

  /** The running count is one exactly at the first version of a row. */
  lemma {:induction false} FirstVersion(vs: seq<Version>)
    requires vs != [] && Ascending(vs)
    ensures Runs(vs).rowVersions == 1 <==> vs[|vs| - 1].row !in RowSet(vs[..|vs| - 1])
  {
    AscendingIsGrouped(vs);
    RunCounts(vs);
    RowSetMembers(vs[..|vs| - 1], vs[|vs| - 1].row);
  }

  ghost function TotalSize(handles: Handles, n: nat): nat
    requires n <= |KeyOrder(handles)|
  {
    if n == 0 then 0 else TotalSize(handles, n - 1) + handles[KeyOrder(handles)[n - 1]].size
  }

  lemma {:induction false} SizesSum(handles: Handles, n: nat)
    requires n <= |KeyOrder(handles)| && Telescopes(handles)
    ensures TotalSize(handles, n) == OffsetBefore(handles, n)
  {
    if n > 0 {
      SizesSum(handles, n - 1);
      assert Steps(handles, n - 1);
    }
  }

  lemma {:induction false} OffsetsIncrease(handles: Handles, i: nat, j: nat)
    requires i < j < |KeyOrder(handles)| && Telescopes(handles)
    ensures handles[KeyOrder(handles)[i]].offset < handles[KeyOrder(handles)[j]].offset
    decreases j
  {
    assert Steps(handles, j);
    if i < j - 1 {
      OffsetsIncrease(handles, i, j - 1);
    }
  }

  ghost predicate OffsetsAscend(handles: Handles) {
    var keys := KeyOrder(handles);
    forall i, j | 0 <= i < j < |keys| :: handles[keys[i]].offset < handles[keys[j]].offset
  }

  /** The finished index: sizes sum to the number of indexed rows, offsets strictly increase in key
      order, and each offset is the number of indexed rows up to the handle's key. */
  lemma {:induction false} FinishedIndex(es: seq<Entry>)
    requires Ascending(Versions(es))
    ensures var handles, rows := Finished(Feed(es).tally).handles, Indexed(Versions(es));
            && TotalSize(handles, |KeyOrder(handles)|) == |rows|
            && CountsRows(handles, rows)
            && Telescopes(handles)
            && OffsetsAscend(handles)
  {
    var vs := Versions(es);
    var handles := Finished(Feed(es).tally).handles;
    FeedTally(es);
    FinishKeeps(vs);
    SizesSum(handles, |KeyOrder(handles)|);
    forall i, j | 0 <= i < j < |KeyOrder(handles)|
      ensures handles[KeyOrder(handles)[i]].offset < handles[KeyOrder(handles)[j]].offset
    {
      OffsetsIncrease(handles, i, j);
    }
  }

  lemma {:induction false} FinishKeeps(vs: seq<Version>)
    requires Ascending(vs)
    ensures var handles := Finished(Tallied(vs)).handles;
            Telescopes(handles) && LastOffset(handles) == |Indexed(vs)| && CountsRows(handles, Indexed(vs))
  {
    var x, rows, last := Tallied(vs).index, Indexed(vs), Tallied(vs).run.lastRow;
    TallyIndexes(vs);
    if x.current.size > 0 {
      TallyRuns(vs);
      LastRow(vs);
      IndexedRows(vs);
      HandlesBeforeLast(x, rows, last);
      HandleAppends(x.handles, last, x.current);
      UpToAll(rows, last);
    }
  }

  /** With rows pending, no handle sits at the last row. */
  lemma {:induction false} HandlesBeforeLast(x: Index, rows: seq<Key>, last: Key)
    requires Indexes(x, rows) && x.current.size > 0 && forall r | r in rows :: LessEq(r, last)
    ensures forall k | k in x.handles :: Less(k, last)
  {
    if last in x.handles {
      UpToAll(rows, last);
      var keys := KeyOrder(x.handles);
      var i :| 0 <= i < |keys| && keys[i] == last;
      if i < |keys| - 1 {
        OffsetsIncrease(x.handles, i, |keys| - 1);
      }
      assert false;
    }
  }

  /** From stream to properties: entries of ascending, nonempty rows give the counts of a naive scan,
      and an index whose sizes sum to the number of rows it holds. */
  method Summarize(es: seq<Entry>) returns (s: State)
    requires Ascending(Versions(es)) && [] !in RowSet(Versions(es))
    ensures var vs, run := Versions(es), s.tally.run;
            && run.rows == |RowSet(vs)| && run.versions == |vs|
            && Tells(s.tally.writes, vs) && s.tally.writes.puts + s.tally.writes.deletes <= run.versions
            && s.errors == |Errors(es)|
            && (forall r :: Count(vs, r) <= run.maxRowVersions)
            && (vs != [] ==> exists r :: r in RowSet(vs) && Count(vs, r) == run.maxRowVersions)
    ensures forall ts | ts in Stamps(es) :: s.minTs <= ts <= s.maxTs
    ensures TotalSize(s.tally.index.handles, |KeyOrder(s.tally.index.handles)|) == |Indexed(Versions(es))|
    ensures CountsRows(s.tally.index.handles, Indexed(Versions(es)))
  {
    var c := new Collector();
    var i := 0;
    while i < |es|
      invariant 0 <= i <= |es| && c.Model() == Feed(es[..i])
    {
      assert es[..i + 1][..i] == es[..i];
      c.Add(es[i]);
      i := i + 1;
    }
    assert es[..i] == es;
    c.Finish();
    s := State(c.minTs, c.maxTs, c.errors,
               Tally(Run(c.rows, c.versions, c.maxRowVersions, c.lastRow, c.rowVersions), Writes(c.puts, c.deletes),
                     Index(c.current, c.handles)));
    StreamCounts(es);
    FeedStamps(es);
    FinishedIndex(es);
  }

  lemma {:induction false} StreamCounts(es: seq<Entry>)
    requires Ascending(Versions(es)) && [] !in RowSet(Versions(es))
    ensures var vs, t := Versions(es), Feed(es).tally;
            && t.run.rows == |RowSet(vs)| && t.run.versions == |vs|
            && Tells(t.writes, vs) && t.writes.puts + t.writes.deletes <= |vs| && Feed(es).errors == |Errors(es)|
            && (forall r :: Count(vs, r) <= t.run.maxRowVersions)
            && (vs != [] ==> exists r :: r in RowSet(vs) && Count(vs, r) == t.run.maxRowVersions)
  {
    var vs := Versions(es);
    AscendingIsGrouped(vs);
    FeedRuns(es);
    FeedTally(es);
    TallyRuns(vs);
    RunMaximum(vs);
    WritesWithinVersions(vs);
  }
}
