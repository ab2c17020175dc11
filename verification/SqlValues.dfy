/** Printing inline rows: the values, cut into chunks, are read back as a table of the given width
    exactly when there are some and they divide evenly. */
module SqlValues {
  import opened Sequences
  import opened SqlPrinter
  import opened Arithmetic

  type Row = seq<string>

  // Without names the width stands alone.
  datatype Values = Unnamed(size: nat, values: seq<string>) | Named(names: seq<string>, values: seq<string>)

  function Width(v: Values): nat {
    if v.Named? then |v.names| else v.size
  }

  function Chunks(values: seq<string>, n: nat): seq<Row>
    requires n > 0
  {
    if values == [] then []
    else if |values| <= n then [values]
    else [values[..n]] + Chunks(values[n..], n)
  }

  // ---------- printing ----------

  function MoreLiterals(row: Row): seq<Token> {
    if row == [] then [] else [Comma, Literal(row[0])] + MoreLiterals(row[1..])
  }

  function Literals(row: Row): seq<Token> {
    if row == [] then [] else [Literal(row[0])] + MoreLiterals(row[1..])
  }

  function PrintRow(row: Row): seq<Token> {
    [Open] + Literals(row) + [Close]
  }

  function MoreRows(rows: seq<Row>): seq<Token> {
    if rows == [] then [] else [Comma] + PrintRow(rows[0]) + MoreRows(rows[1..])
  }

  function PrintRows(rows: seq<Row>): seq<Token> {
    if rows == [] then [] else PrintRow(rows[0]) + MoreRows(rows[1..])
  }

  function MoreNames(names: seq<string>): seq<Token> {
    if names == [] then [] else [Comma, Num(0), KAs, Name(names[0])] + MoreNames(names[1..])
  }

  function Columns(names: seq<string>): seq<Token> {
    if names == [] then [] else [Num(0), KAs, Name(names[0])] + MoreNames(names[1..])
  }

  /** An empty SELECT that only names the columns. */
  function PrintHeader(names: seq<string>): seq<Token> {
    [KSelect] + Columns(names) + [KWhere, Num(0), KUnionAll]
  }

  function PrintValues(v: Values): seq<Token>
    requires Width(v) > 0
  {
    (if v.Named? then PrintHeader(v.names) else []) + [KValues] + PrintRows(Chunks(v.values, Width(v)))
  }

  // ---------- reading ----------

  function ReadLiterals(seen: Row, ts: seq<Token>): (r: Read<Row>)
    ensures r.Got? ==> |r.rest| < |ts|
    decreases |ts|
  {
    if ts == [] then Fail
    else if ts[0] == Close then Got(seen, ts[1..])
    else if |ts| >= 2 && ts[0] == Comma && ts[1].Literal? then ReadLiterals(seen + [ts[1].text], ts[2..])
    else Fail
  }

  function ReadRow(ts: seq<Token>): (r: Read<Row>)
    ensures r.Got? ==> |r.rest| < |ts|
  {
    if |ts| >= 2 && ts[0] == Open && ts[1].Literal? then ReadLiterals([ts[1].text], ts[2..]) else Fail
  }

  function ReadRows(seen: seq<Row>, ts: seq<Token>): (r: Read<seq<Row>>)
    decreases |ts|
  {
    if ts == [] || ts[0] != Comma then Got(seen, ts)
    else match ReadRow(ts[1..])
      case Got(row, rest) => ReadRows(seen + [row], rest)
      case Fail => Fail
  }

  /** A table needs at least one row. */
  function ReadTable(ts: seq<Token>): (r: Read<seq<Row>>) {
    if ts == [] || ts[0] != KValues then Fail
    else match ReadRow(ts[1..])
      case Got(row, rest) => ReadRows([row], rest)
      case Fail => Fail
  }

  function ReadNames(seen: seq<string>, ts: seq<Token>): (r: Read<seq<string>>)
    ensures r.Got? ==> |r.rest| < |ts|
    decreases |ts|
  {
    if |ts| >= 3 && ts[..3] == [KWhere, Num(0), KUnionAll] then Got(seen, ts[3..])
    else if |ts| >= 4 && ts[..3] == [Comma, Num(0), KAs] && ts[3].Name? then ReadNames(seen + [ts[3].name], ts[4..])
    else Fail
  }

  function ReadHeader(ts: seq<Token>): (r: Read<seq<string>>) {
    if |ts| >= 4 && ts[..3] == [KSelect, Num(0), KAs] && ts[3].Name? then ReadNames([ts[3].name], ts[4..]) else Fail
  }

  // ---------- what the chunks are ----------

  ghost function Flattened(rows: seq<Row>): seq<string> {
    if rows == [] then [] else rows[0] + Flattened(rows[1..])
  }

  /** Chunks lose nothing, are never empty, and are full but for the last, which holds what is left. */
  lemma {:induction false} ChunksCover(values: seq<string>, n: nat)
    requires n > 0
    ensures Flattened(Chunks(values, n)) == values
    ensures forall i | 0 <= i < |Chunks(values, n)| :: 0 < |Chunks(values, n)[i]| <= n
    ensures Chunks(values, n) == [] <==> values == []
    decreases |values|
  {
    if |values| > n {
      ChunksCover(values[n..], n);
      assert values == values[..n] + values[n..];
    } else if values != [] {
      assert Flattened([values]) == values + Flattened([values][1..]);
    }
  }

  /** Every chunk is full exactly when the width divides the number of values. */
  lemma {:induction false} ChunksFullIff(values: seq<string>, n: nat)
    requires n > 0
    ensures (forall row | row in Chunks(values, n) :: |row| == n) <==> |values| % n == 0
    decreases |values|
  {
    if |values| > n {
      ChunksFullIff(values[n..], n);
      ModDrops(|values|, n);
      var rest := Chunks(values[n..], n);
      assert forall row :: row in Chunks(values, n) <==> row == values[..n] || row in rest;
    } else if values != [] {
      assert values in Chunks(values, n);
      ModSmall(|values|, n);
    }
  }

  lemma {:induction false} ModDrops(x: nat, n: nat)
    requires 0 < n <= x
    ensures (x - n) % n == x % n
  {
    var q := x / n;
    DivBounds(x, n);
    assert (q - 1) * n == q * n - n;
    DivUnique(q - 1, x - n, n);
  }

  lemma {:induction false} ModSmall(x: nat, n: nat)
    requires 0 < x <= n
    ensures x % n == 0 <==> x == n
  {
  }

  // ---------- reading what was printed ----------

  lemma {:induction false} LiteralsStep(seen: Row, x: string, tail: seq<Token>)
    ensures ReadLiterals(seen, [Comma, Literal(x)] + tail) == ReadLiterals(seen + [x], tail)
  {
  }

  lemma {:induction false} LiteralsRead(seen: Row, row: Row, rest: seq<Token>)
    ensures ReadLiterals(seen, MoreLiterals(row) + ([Close] + rest)) == Got(seen + row, rest)
    decreases |row|
  {
    if row == [] {
      assert [] + ([Close] + rest) == [Close] + rest && ([Close] + rest)[1..] == rest && seen + row == seen;
    } else {
      Associate([Comma, Literal(row[0])], MoreLiterals(row[1..]), [Close] + rest);
      LiteralsStep(seen, row[0], MoreLiterals(row[1..]) + ([Close] + rest));
      LiteralsRead(seen + [row[0]], row[1..], rest);
      FirstMoves(seen, row);
    }
  }

  lemma {:induction false} RowShape(x: string, more: seq<Token>, rest: seq<Token>)
    ensures [Open] + ([Literal(x)] + more) + [Close] + rest == [Open, Literal(x)] + (more + ([Close] + rest))
  {
  }

  lemma {:induction false} RowStarts(x: string, tail: seq<Token>)
    ensures ReadRow([Open, Literal(x)] + tail) == ReadLiterals([x], tail)
  {
  }

  lemma {:induction false} RowReads(row: Row, rest: seq<Token>)
    requires row != []
    ensures ReadRow(PrintRow(row) + rest) == Got(row, rest)
  {
    RowShape(row[0], MoreLiterals(row[1..]), rest);
    RowStarts(row[0], MoreLiterals(row[1..]) + ([Close] + rest));
    LiteralsRead([row[0]], row[1..], rest);
    assert [row[0]] + row[1..] == row;
  }

  lemma {:induction false} RowsStep(seen: seq<Row>, row: Row, ts: seq<Token>, more: seq<Token>)
    requires ReadRow(ts) == Got(row, more)
    ensures ReadRows(seen, [Comma] + ts) == ReadRows(seen + [row], more)
  {
  }

  lemma {:induction false} NextRow(seen: seq<Row>, rows: seq<Row>, rest: seq<Token>)
    requires |rows| > 0 && |rows[0]| > 0
    ensures ReadRows(seen, MoreRows(rows) + rest) == ReadRows(seen + [rows[0]], MoreRows(rows[1..]) + rest)
  {
    var more := MoreRows(rows[1..]) + rest;
    Associate([Comma] + PrintRow(rows[0]), MoreRows(rows[1..]), rest);
    Associate([Comma], PrintRow(rows[0]), more);
    RowReads(rows[0], more);
    RowsStep(seen, rows[0], PrintRow(rows[0]) + more, more);
  }

  ghost predicate RowsComplete(seen: seq<Row>, rows: seq<Row>, rest: seq<Token>) {
    ReadRows(seen, MoreRows(rows) + rest) == Got(seen + rows, rest)
  }

  lemma {:induction false} NoMoreRows(seen: seq<Row>, rest: seq<Token>)
    requires Ends(rest)
    ensures RowsComplete(seen, [], rest)
  {
    assert MoreRows([]) + rest == rest && seen + [] == seen;
  }

  lemma {:induction false} RowsRead(seen: seq<Row>, rows: seq<Row>, rest: seq<Token>)
    requires (forall i | 0 <= i < |rows| :: |rows[i]| > 0) && Ends(rest)
    ensures RowsComplete(seen, rows, rest)
    decreases |rows|
  {
    if |rows| == 0 {
      NoMoreRows(seen, rest);
    } else {
      NextRow(seen, rows, rest);
      RowsRead(seen + [rows[0]], rows[1..], rest);
      FirstMoves(seen, rows);
    }
  }

  lemma {:induction false} NamesStep(seen: seq<string>, x: string, tail: seq<Token>)
    ensures ReadNames(seen, [Comma, Num(0), KAs, Name(x)] + tail) == ReadNames(seen + [x], tail)
  {
    var ts := [Comma, Num(0), KAs, Name(x)] + tail;
    assert ts[..3] == [Comma, Num(0), KAs] && ts[4..] == tail;
  }

  lemma {:induction false} NamesEnd(seen: seq<string>, rest: seq<Token>)
    ensures ReadNames(seen, [KWhere, Num(0), KUnionAll] + rest) == Got(seen, rest)
  {
  }

  lemma {:induction false} NamesRead(seen: seq<string>, names: seq<string>, rest: seq<Token>)
    ensures ReadNames(seen, MoreNames(names) + ([KWhere, Num(0), KUnionAll] + rest)) == Got(seen + names, rest)
    decreases |names|
  {
    var ending := [KWhere, Num(0), KUnionAll] + rest;
    if names == [] {
      assert [] + ending == ending && seen + names == seen;
      NamesEnd(seen, rest);
    } else {
      Associate([Comma, Num(0), KAs, Name(names[0])], MoreNames(names[1..]), ending);
      NamesStep(seen, names[0], MoreNames(names[1..]) + ending);
      NamesRead(seen + [names[0]], names[1..], rest);
      FirstMoves(seen, names);
    }
  }

  lemma {:induction false} HeaderShape(x: string, more: seq<Token>, rest: seq<Token>)
    ensures [KSelect] + ([Num(0), KAs, Name(x)] + more) + [KWhere, Num(0), KUnionAll] + rest ==
            [KSelect, Num(0), KAs, Name(x)] + (more + ([KWhere, Num(0), KUnionAll] + rest))
  {
  }

  lemma {:induction false} HeaderStarts(x: string, tail: seq<Token>)
    ensures ReadHeader([KSelect, Num(0), KAs, Name(x)] + tail) == ReadNames([x], tail)
  {
  }

  /** The header names the columns in order. */
  lemma {:induction false} HeaderReads(names: seq<string>, rest: seq<Token>)
    requires names != []
    ensures ReadHeader(PrintHeader(names) + rest) == Got(names, rest)
  {
    HeaderShape(names[0], MoreNames(names[1..]), rest);
    HeaderStarts(names[0], MoreNames(names[1..]) + ([KWhere, Num(0), KUnionAll] + rest));
    NamesRead([names[0]], names[1..], rest);
    assert [names[0]] + names[1..] == names;
  }

  // ---------- both together ----------

  datatype Table = Table(names: seq<string>, rows: seq<Row>)

  function NamesOf(v: Values): seq<string> {
    if v.Named? then v.names else []
  }

  /** The rows hold the values in order and are as wide as asked. */
  ghost predicate Full(v: Values, rows: seq<Row>) {
    Flattened(rows) == v.values && forall row | row in rows :: |row| == Width(v)
  }

  function WithNames(names: seq<string>, r: Read<seq<Row>>): (t: Read<Table>) {
    match r
    case Got(rows, rest) => Got(Table(names, rows), rest)
    case Fail => Fail
  }

  /** A statement of inline rows: a header if there is one, then the table. */
  function ReadValues(ts: seq<Token>): (r: Read<Table>) {
    if ts != [] && ts[0] == KSelect then
      match ReadHeader(ts)
      case Got(names, rest) => WithNames(names, ReadTable(rest))
      case Fail => Fail
    else WithNames([], ReadTable(ts))
  }

  lemma {:induction false} TableStarts(ts: seq<Token>, row: Row, more: seq<Token>)
    requires ReadRow(ts) == Got(row, more)
    ensures ReadTable([KValues] + ts) == ReadRows([row], more)
  {
  }

  lemma {:induction false} NoTable(rest: seq<Token>)
    requires Ends(rest)
    ensures ReadTable([KValues] + [] + rest) == Fail
  {
  }

  lemma {:induction false} TableReads(values: seq<string>, n: nat, rest: seq<Token>)
    requires n > 0 && Ends(rest)
    ensures ReadTable([KValues] + PrintRows(Chunks(values, n)) + rest) ==
            if values == [] then Fail else Got(Chunks(values, n), rest)
  {
    var rows := Chunks(values, n);
    ChunksCover(values, n);
    if rows == [] {
      NoTable(rest);
    } else {
      var more := MoreRows(rows[1..]) + rest;
      Associate([KValues], PrintRows(rows), rest);
      Associate(PrintRow(rows[0]), MoreRows(rows[1..]), rest);
      RowReads(rows[0], more);
      TableStarts(PrintRow(rows[0]) + more, rows[0], more);
      RowsRead([rows[0]], rows[1..], rest);
      assert [rows[0]] + rows[1..] == rows;
    }
  }

  lemma {:induction false} NamedRead(v: Values, table: seq<Token>)
    requires v.Named? && v.names != []
    ensures ReadValues(PrintHeader(v.names) + table) == WithNames(v.names, ReadTable(table))
  {
    HeaderReads(v.names, table);
    assert (PrintHeader(v.names) + table)[0] == KSelect;
  }

  lemma {:induction false} NamedShape(v: Values, table: seq<Token>, rest: seq<Token>)
    requires v.Named? && Width(v) > 0 && table == [KValues] + PrintRows(Chunks(v.values, Width(v)))
    ensures PrintValues(v) + rest == PrintHeader(v.names) + (table + rest)
  {
    Associate(PrintHeader(v.names), [KValues], PrintRows(Chunks(v.values, Width(v))));
    Associate(PrintHeader(v.names), table, rest);
  }

  lemma {:induction false} UnnamedRead(table: seq<Token>)
    ensures ReadValues([KValues] + table) == WithNames([], ReadTable([KValues] + table))
  {
  }

  lemma {:induction false} ValuesRead(v: Values, rest: seq<Token>)
    requires Width(v) > 0 && Ends(rest)
    ensures ReadValues(PrintValues(v) + rest) ==
            if v.values == [] then Fail else Got(Table(NamesOf(v), Chunks(v.values, Width(v))), rest)
  {
    var rows := PrintRows(Chunks(v.values, Width(v)));
    TableReads(v.values, Width(v), rest);
    if v.Named? {
      NamedShape(v, [KValues] + rows, rest);
      NamedRead(v, [KValues] + rows + rest);
    } else {
      assert PrintValues(v) == [KValues] + rows;
      Associate([KValues], rows, rest);
      UnnamedRead(rows + rest);
    }
  }

  /** The printed values are read back with their names, if they have any, and as a table of full
      rows, in order, if and only if there is at least one value and the width divides their number. */
  lemma {:induction false} ValuesReadIff(v: Values, rest: seq<Token>)
    requires Width(v) > 0 && Ends(rest)
    ensures (exists rows :: ReadValues(PrintValues(v) + rest) == Got(Table(NamesOf(v), rows), rest) && Full(v, rows))
            <==> v.values != [] && |v.values| % Width(v) == 0
  {
    ValuesRead(v, rest);
    ChunksCover(v.values, Width(v));
    ChunksFullIff(v.values, Width(v));
  }

  /** One value does not make a row of two. */
  lemma {:induction false} RaggedExample(x: string, rest: seq<Token>)
    requires Ends(rest)
    ensures !exists rows ::
            ReadValues(PrintValues(Unnamed(2, [x])) + rest) == Got(Table([], rows), rest) && Full(Unnamed(2, [x]), rows)
  {
    ValuesReadIff(Unnamed(2, [x]), rest);
  }

  // ---------- pushing ----------

  lemma {:induction false} NextLiteral(out: seq<Token>, row: Row, i: nat)
    requires i < |row|
    ensures out + MoreLiterals(row[i..]) == out + [Comma, Literal(row[i])] + MoreLiterals(row[i + 1..])
  {
  }

  lemma {:induction false} NextName(out: seq<Token>, names: seq<string>, i: nat)
    requires i < |names|
    ensures out + MoreNames(names[i..]) == out + [Comma, Num(0), KAs, Name(names[i])] + MoreNames(names[i + 1..])
  {
  }

  method PushLiterals(b: Builder, row: Row)
    modifies b
    ensures b.out == old(b.out) + Literals(row)
  {
    if row != [] {
      b.out := b.out + [Literal(row[0])];
      ghost var first := b.out;
      var i := 1;
      while i < |row|
        invariant 1 <= i <= |row|
        invariant b.out + MoreLiterals(row[i..]) == first + MoreLiterals(row[1..])
      {
        NextLiteral(b.out, row, i);
        b.out := b.out + [Comma, Literal(row[i])];
        i := i + 1;
      }
      assert b.out + MoreLiterals([]) == b.out;
      Associate(old(b.out), [Literal(row[0])], MoreLiterals(row[1..]));
    }
  }

  method PushRow(b: Builder, row: Row)
    modifies b
    ensures b.out == old(b.out) + PrintRow(row)
  {
    b.out := b.out + [Open];
    PushLiterals(b, row);
    b.out := b.out + [Close];
    Associate(old(b.out), [Open], Literals(row));
    Associate(old(b.out), [Open] + Literals(row), [Close]);
  }

  method PushNextRow(b: Builder, row: Row)
    modifies b
    ensures b.out == old(b.out) + ([Comma] + PrintRow(row))
  {
    b.out := b.out + [Comma];
    PushRow(b, row);
    Associate(old(b.out), [Comma], PrintRow(row));
  }

  /** Cuts the values into chunks and pushes them one after another. */
  method PushRows(b: Builder, values: seq<string>, n: nat)
    requires n > 0
    modifies b
    ensures b.out == old(b.out) + PrintRows(Chunks(values, n))
  {
    if values != [] {
      var row, left := NextChunk(values, n);
      PushRow(b, row);
      ghost var first, more := b.out, Chunks(left, n);
      while left != []
        invariant b.out + MoreRows(Chunks(left, n)) == first + MoreRows(more)
        decreases |left|
      {
        ghost var rest := Chunks(left, n)[1..];
        row, left := NextChunk(left, n);
        Associate(b.out, [Comma] + PrintRow(row), MoreRows(rest));
        PushNextRow(b, row);
      }
      assert b.out + MoreRows([]) == b.out;
      Associate(old(b.out), PrintRow(Chunks(values, n)[0]), MoreRows(more));
    }
  }

  method PushColumns(b: Builder, names: seq<string>)
    modifies b
    ensures b.out == old(b.out) + Columns(names)
  {
    if names != [] {
      b.out := b.out + [Num(0), KAs, Name(names[0])];
      ghost var first := b.out;
      var i := 1;
      while i < |names|
        invariant 1 <= i <= |names|
        invariant b.out + MoreNames(names[i..]) == first + MoreNames(names[1..])
      {
        NextName(b.out, names, i);
        b.out := b.out + [Comma, Num(0), KAs, Name(names[i])];
        i := i + 1;
      }
      assert b.out + MoreNames([]) == b.out;
      Associate(old(b.out), [Num(0), KAs, Name(names[0])], MoreNames(names[1..]));
    }
  }

  method PushHeader(b: Builder, names: seq<string>)
    modifies b
    ensures b.out == old(b.out) + PrintHeader(names)
  {
    b.out := b.out + [KSelect];
    PushColumns(b, names);
    b.out := b.out + [KWhere, Num(0), KUnionAll];
    Associate(old(b.out), [KSelect], Columns(names));
    Associate(old(b.out), [KSelect] + Columns(names), [KWhere, Num(0), KUnionAll]);
  }

  method Push(b: Builder, v: Values)
    requires Width(v) > 0
    modifies b
    ensures b.out == old(b.out) + PrintValues(v)
  {
    if v.Named? {
      PushHeader(b, v.names);
    }
    ghost var head := if v.Named? then PrintHeader(v.names) else [];
    assert b.out == old(b.out) + head;
    b.out := b.out + [KValues];
    PushRows(b, v.values, Width(v));
    Associate(old(b.out), head, [KValues]);
    Associate(old(b.out), head + [KValues], PrintRows(Chunks(v.values, Width(v))));
  }

  method NextChunk(values: seq<string>, n: nat) returns (row: Row, left: seq<string>)
    requires n > 0 && values != []
    ensures Chunks(values, n) == [row] + Chunks(left, n) && |left| < |values|
  {
    if |values| <= n {
      return values, [];
    }
    return values[..n], values[n..];
  }
}
