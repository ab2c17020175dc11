/** The schema-changing assertions of a transaction, read two ways: from the search results before
    the log is written, and from the log afterwards. */
module SpacetimeAssertions {
  import opened Bytes
  import opened Sorting
  import opened Transactor

  // Cardinality, fulltext, ident, index, component, unique and value type.
  const SPACETIME_ATTRIBUTES: set<int> := {8, 12, 1, 11, 10, 9, 7}

  datatype Assertion = Assertion(fact: Fact, added: bool)

  // ---------- ORDER BY e, a, v, value_type_tag, added ----------

  predicate ValueLess(x: Value, y: Value) {
    match (x, y)
    case (Number(m), Number(n)) => m < n
    case (Number(_), _) => true
    case (Text(s), Text(t)) => Less(s, t)
    case (Text(_), Blob(_)) => true
    case (Blob(s), Blob(t)) => Less(s, t)
    case _ => false
  }

  predicate AssertionLeq(x: Assertion, y: Assertion) {
    var f, g := x.fact, y.fact;
    if f.e != g.e then f.e < g.e
    else if f.a != g.a then f.a < g.a
    else if f.v != g.v then ValueLess(f.v, g.v)
    else if f.tag != g.tag then f.tag < g.tag
    else x.added ==> y.added
  }

  lemma {:induction false} ValueOrder()
    ensures forall x :: !ValueLess(x, x)
    ensures forall x, y, z :: ValueLess(x, y) && ValueLess(y, z) ==> ValueLess(x, z)
    ensures forall x, y :: ValueLess(x, y) || x == y || ValueLess(y, x)
  {
    Bytes.Order();
  }

  /** The sort key is a total order on rows, so sorting leaves nothing to chance. */
  lemma {:induction false} AssertionOrder()
    ensures TotalOrder(AssertionLeq)
  {
    ValueOrder();
    forall x, y | AssertionLeq(x, y) && AssertionLeq(y, x) ensures x == y {
      assert x.fact.v == y.fact.v;
    }
  }

  // ---------- the two queries ----------

  /** The union of the added and the retracted rows, without duplicates, in order. */
  ghost function Resolved(rs: set<SearchResult>): seq<Assertion> {
    var rows :=
      (set f | f in AddedFacts(rs) && f.a in SPACETIME_ATTRIBUTES :: Assertion(f, true)) +
      (set f | f in RetractedFacts(rs) && f.a in SPACETIME_ATTRIBUTES :: Assertion(f, false));
    Sort(Enumerate(rows), AssertionLeq)
  }

  function Select(log: seq<LogRow>, tx: int): seq<Assertion> {
    if log == [] then []
    else
      var row := log[0];
      (if row.tx == tx && row.fact.a in SPACETIME_ATTRIBUTES then [Assertion(row.fact, row.added)] else [])
      + Select(log[1..], tx)
  }

  /** The log rows of one transaction, duplicates and all, in order. */
  function CommittedAssertions(log: seq<LogRow>, tx: int): seq<Assertion> {
    Sort(Select(log, tx), AssertionLeq)
  }

  lemma {:induction false} SelectSkips(log: seq<LogRow>, tail: seq<LogRow>, tx: int)
    requires FreshTx(log, tx)
    ensures Select(log + tail, tx) == Select(tail, tx)
  {
    if log == [] {
      assert log + tail == tail;
    } else {
      assert (log + tail)[1..] == log[1..] + tail;
      SelectSkips(log[1..], tail, tx);
    }
  }

  lemma {:induction false} SelectKeeps(log: seq<LogRow>, tx: int)
    requires Distinct(log)
    ensures Distinct(Select(log, tx))
    ensures forall x :: x in Select(log, tx) <==> LogRow(x.fact, tx, x.added) in log && x.fact.a in SPACETIME_ATTRIBUTES
  {
    if log != [] {
      SelectKeeps(log[1..], tx);
    }
  }

  /** Reading the assertions before or after the log is written gives the same list, and no row
      twice. */
  lemma {:induction false} ResolvedIsCommitted(log: seq<LogRow>, rs: set<SearchResult>, tx: int, log': seq<LogRow>)
    requires FreshTx(log, tx) && LogAppended(log, rs, tx, log')
    ensures CommittedAssertions(log', tx) == Resolved(rs)
    ensures Distinct(Resolved(rs)) && SortedBy(Resolved(rs), AssertionLeq)
  {
    var rows :=
      (set f | f in AddedFacts(rs) && f.a in SPACETIME_ATTRIBUTES :: Assertion(f, true)) +
      (set f | f in RetractedFacts(rs) && f.a in SPACETIME_ATTRIBUTES :: Assertion(f, false));
    var tail := log'[|log|..];
    assert log' == log + tail;
    SelectSkips(log, tail, tx);
    SelectKeeps(tail, tx);
    EnumerateLists(rows);
    forall x ensures x in Select(log', tx) <==> x in Enumerate(rows) {
      assert LogRow(x.fact, tx, x.added) in tail <==>
          x.fact in (if x.added then AddedFacts(rs) else RetractedFacts(rs));
    }
    SortAgrees(Select(log', tx), Enumerate(rows));
  }

  /** The list holds the log rows of the transaction about the seven attributes that describe others. */
  lemma {:induction false} CommittedLists(log: seq<LogRow>, rs: set<SearchResult>, tx: int, log': seq<LogRow>,
      x: Assertion)
    requires FreshTx(log, tx) && LogAppended(log, rs, tx, log')
    ensures x in CommittedAssertions(log', tx) <==>
            LogRow(x.fact, tx, x.added) in log'[|log|..] && x.fact.a in {1, 7, 8, 9, 10, 11, 12}
  {
    SelectedRows(log, rs, tx, log', x);
    SortMembers(Select(log', tx), AssertionLeq, x);
  }

  lemma {:induction false} SelectedRows(log: seq<LogRow>, rs: set<SearchResult>, tx: int, log': seq<LogRow>,
      x: Assertion)
    requires FreshTx(log, tx) && LogAppended(log, rs, tx, log')
    ensures x in Select(log', tx) <==> LogRow(x.fact, tx, x.added) in log'[|log|..] && x.fact.a in SPACETIME_ATTRIBUTES
  {
    var tail := log'[|log|..];
    assert log' == log + tail;
    SelectSkips(log, tail, tx);
    SelectKeeps(tail, tx);
  }

  /** Numbers come before texts and texts before blobs, each kind in its own order. */
  ghost predicate ValuesInOrder(x: Value, y: Value) {
    match x
    case Number(m) => y.Number? ==> m <= y.x
    case Text(s) => !y.Number? && (y.Text? ==> LessEq(s, y.utf8))
    case Blob(s) => y.Blob? && LessEq(s, y.bytes)
  }

  /** Column by column: entity, attribute, value, tag, and retractions before additions. */
  ghost predicate ByColumns(x: Assertion, y: Assertion) {
    var f, g := x.fact, y.fact;
    && f.e <= g.e
    && (f.e == g.e ==> f.a <= g.a)
    && (f.e == g.e && f.a == g.a ==> ValuesInOrder(f.v, g.v))
    && (f.e == g.e && f.a == g.a && f.v == g.v ==> f.tag <= g.tag)
    && (f == g && x.added ==> y.added)
  }

  lemma {:induction false} ColumnsInOrder(log: seq<LogRow>, tx: int)
    ensures var rows := CommittedAssertions(log, tx);
            forall i, j | 0 <= i < j < |rows| :: ByColumns(rows[i], rows[j])
  {
    AssertionOrder();
    SortIsSorted(Select(log, tx), AssertionLeq);
    var rows := CommittedAssertions(log, tx);
    forall i, j | 0 <= i < j < |rows| ensures ByColumns(rows[i], rows[j]) {
      assert AssertionLeq(rows[i], rows[j]);
    }
  }

  lemma {:induction false} SortAgrees(s: seq<Assertion>, t: seq<Assertion>)
    requires Distinct(s) && Distinct(t) && forall x :: x in s <==> x in t
    ensures Sort(s, AssertionLeq) == Sort(t, AssertionLeq)
    ensures Distinct(Sort(t, AssertionLeq)) && SortedBy(Sort(t, AssertionLeq), AssertionLeq)
  {
    AssertionOrder();
    DistinctSameMembers(s, t);
    SortKeepsElements(s, AssertionLeq);
    SortKeepsElements(t, AssertionLeq);
    SortIsSorted(s, AssertionLeq);
    SortIsSorted(t, AssertionLeq);
    SortedIsUnique(Sort(s, AssertionLeq), Sort(t, AssertionLeq), AssertionLeq);
    DistinctRearranged(t, Sort(t, AssertionLeq));
  }
}
