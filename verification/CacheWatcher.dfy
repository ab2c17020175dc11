/** The watcher that collects a transaction's terms for the cache: what it hands over is what the
    transaction asks for, each row once. */
module CacheWatcher {
  import opened Options
  import opened Sequences
  import opened Sorting
  import T = Transactor
  import TransactorIntent
  import opened AttributeCache
  import opened CacheObjects

  datatype Term = Term(add: bool, row: Aev)

  // ---------- collecting ----------

  // Per attribute: the rows seen, or nothing if the attribute is not cached.
  type Collected = map<int, Option<seq<Aev>>>

  ghost function Held(c: Collected, a: int): multiset<Aev> {
    if a in c && c[a].Some? then multiset(c[a].value) else multiset{}
  }

  /** How often the watcher owes the cache a row. */
  ghost function Owed(cached: set<int>, seen: seq<Term>, add: bool, row: Aev): nat {
    if row.a in cached then multiset(seen)[Term(add, row)] else 0
  }

  /** Rows are filed under their own attribute. */
  ghost predicate Filed(c: Collected) {
    forall a, row | row in Held(c, a) :: row.a == a
  }

  ghost predicate Placed(c: Collected, cached: set<int>) {
    forall a | a in c :: c[a].Some? <==> a in cached
  }

  ghost predicate Noted(c: Collected, seen: seq<Term>, add: bool) {
    forall i | 0 <= i < |seen| && seen[i].add == add :: seen[i].row.a in c
  }

  ghost predicate Counted(c: Collected, cached: set<int>, seen: seq<Term>, add: bool) {
    forall row: Aev :: Held(c, row.a)[row] == Owed(cached, seen, add, row)
  }

  ghost function List(c: Collected, a: int): seq<Aev> {
    if a in c && c[a].Some? then c[a].value else []
  }

  /** The rows seen of one attribute, in their order. */
  ghost function Asked(seen: seq<Term>, add: bool, a: int): seq<Aev> {
    if seen == [] then []
    else
      var n := |seen| - 1;
      Asked(seen[..n], add, a) + if seen[n].add == add && seen[n].row.a == a then [seen[n].row] else []
  }

  ghost predicate Ordered(c: Collected, cached: set<int>, seen: seq<Term>, add: bool) {
    forall a :: List(c, a) == if a in cached then Asked(seen, add, a) else []
  }

  ghost predicate Collects(c: Collected, cached: set<int>, seen: seq<Term>, add: bool) {
    && Placed(c, cached) && Noted(c, seen, add) && Filed(c) && Counted(c, cached, seen, add)
    && Ordered(c, cached, seen, add)
  }

  /** Enters a row: the first one of an attribute decides whether its rows are kept. */
  function File(c: Collected, cached: set<int>, row: Aev): Collected {
    if row.a !in c then c[row.a := if row.a in cached then Some([row]) else None]
    else if c[row.a].Some? then c[row.a := Some(c[row.a].value + [row])]
    else c
  }

  lemma {:induction false} FileHolds(c: Collected, cached: set<int>, row: Aev, a: int, x: Aev)
    requires Placed(c, cached)
    ensures Held(File(c, cached, row), a)[x] == Held(c, a)[x] + if a == row.a && a in cached && x == row then 1 else 0
  {
  }

  lemma {:induction false} FileFiled(c: Collected, cached: set<int>, row: Aev)
    requires Placed(c, cached) && Filed(c)
    ensures Filed(File(c, cached, row))
  {
    forall a, x | x in Held(File(c, cached, row), a) ensures x.a == a {
      FileHolds(c, cached, row, a, x);
      if x in Held(c, a) {
      }
    }
  }

  lemma {:induction false} OwedNext(cached: set<int>, seen: seq<Term>, add: bool, term: Term, x: Aev)
    ensures Owed(cached, seen + [term], add, x) ==
            Owed(cached, seen, add, x) + if x.a in cached && term == Term(add, x) then 1 else 0
  {
    assert multiset(seen + [term]) == multiset(seen) + multiset{term};
  }

  lemma {:induction false} FileCounted(c: Collected, cached: set<int>, seen: seq<Term>, add: bool, row: Aev)
    requires Placed(c, cached) && Counted(c, cached, seen, add)
    ensures Counted(File(c, cached, row), cached, seen + [Term(add, row)], add)
  {
    forall x: Aev ensures Held(File(c, cached, row), x.a)[x] == Owed(cached, seen + [Term(add, row)], add, x) {
      FileHolds(c, cached, row, x.a, x);
      OwedNext(cached, seen, add, Term(add, row), x);
    }
  }

  lemma {:induction false} FileNoted(c: Collected, cached: set<int>, seen: seq<Term>, add: bool, row: Aev)
    requires Placed(c, cached) && Noted(c, seen, add)
    ensures Placed(File(c, cached, row), cached) && Noted(File(c, cached, row), seen + [Term(add, row)], add)
  {
    assert File(c, cached, row).Keys == c.Keys + {row.a};
  }

  lemma {:induction false} AskedNext(seen: seq<Term>, term: Term, add: bool, a: int)
    ensures Asked(seen + [term], add, a) == Asked(seen, add, a) + if term.add == add &&
            term.row.a == a then [term.row] else []
  {
    assert (seen + [term])[..|seen|] == seen;
  }

  lemma {:induction false} FileOrdered(c: Collected, cached: set<int>, seen: seq<Term>, add: bool, row: Aev)
    requires Placed(c, cached) && Ordered(c, cached, seen, add)
    ensures Ordered(File(c, cached, row), cached, seen + [Term(add, row)], add)
  {
    forall a ensures List(File(c, cached, row), a) ==
        if a in cached then Asked(seen + [Term(add, row)], add, a) else [] {
      AskedNext(seen, Term(add, row), add, a);
      assert List(c, a) == if a in cached then Asked(seen, add, a) else [];
    }
  }

  lemma {:induction false} FileCollects(c: Collected, cached: set<int>, seen: seq<Term>, add: bool, row: Aev)
    requires Collects(c, cached, seen, add)
    ensures Collects(File(c, cached, row), cached, seen + [Term(add, row)], add)
  {
    FileNoted(c, cached, seen, add, row);
    FileFiled(c, cached, row);
    FileCounted(c, cached, seen, add, row);
    FileOrdered(c, cached, seen, add, row);
  }

  lemma {:induction false} OtherTermOwesNothing(c: Collected, cached: set<int>, seen: seq<Term>, add: bool, term: Term)
    requires Collects(c, cached, seen, add) && term.add != add
    ensures Collects(c, cached, seen + [term], add)
  {
    forall x: Aev ensures Held(c, x.a)[x] == Owed(cached, seen + [term], add, x) {
      OwedNext(cached, seen, add, term, x);
    }
    forall a ensures Asked(seen + [term], add, a) == Asked(seen, add, a) {
      AskedNext(seen, term, add, a);
    }
  }

  // ---------- handing over ----------

  /** The rows of one attribute, in their order. */
  ghost function OfAttribute(rows: seq<Aev>, a: int): seq<Aev> {
    if rows == [] then []
    else
      var n := |rows| - 1;
      OfAttribute(rows[..n], a) + if rows[n].a == a then [rows[n]] else []
  }

  lemma {:induction false} OfAttributeAppends(rows: seq<Aev>, more: seq<Aev>, a: int, b: int)
    requires forall row | row in more :: row.a == b
    ensures OfAttribute(rows + more, a) == OfAttribute(rows, a) + if a == b then more else []
    decreases |more|
  {
    if more == [] {
      assert rows + more == rows;
    } else {
      var n := |more| - 1;
      OfAttributeAppends(rows, more[..n], a, b);
      assert more[n] in more;
      assert rows + more == (rows + more[..n]) + [more[n]];
      assert (rows + more)[..|rows| + n] == rows + more[..n];
      assert OfAttribute(rows + more, a) == OfAttribute(rows + more[..n], a) + if a == b then [more[n]] else [];
      Associate(OfAttribute(rows, a), more[..n], [more[n]]);
      assert more[..n] + [more[n]] == more;
    }
  }

  ghost predicate Expanded(c: Collected, todo: set<int>, rows: seq<Aev>) {
    forall a :: OfAttribute(rows, a) == if a in todo then [] else List(c, a)
  }

  lemma {:induction false} ExpandNext(c: Collected, todo: set<int>, rows: seq<Aev>, a: int)
    requires Filed(c) && Expanded(c, todo, rows) && a in todo
    ensures Expanded(c, todo - {a}, if a in c && c[a].Some? then rows + c[a].value else rows)
  {
    var more := List(c, a);
    assert forall row | row in more :: row in Held(c, a);
    forall b ensures OfAttribute(rows + more, b) == if b in todo - {a} then [] else List(c, b) {
      OfAttributeAppends(rows, more, b, a);
      assert OfAttribute(rows, b) == if b in todo then [] else List(c, b);
    }
    assert more == [] ==> rows + more == rows;
  }

  lemma {:induction false} CountOfAttribute(rows: seq<Aev>, row: Aev)
    ensures multiset(rows)[row] == multiset(OfAttribute(rows, row.a))[row]
    decreases |rows|
  {
    if rows != [] {
      var n := |rows| - 1;
      CountOfAttribute(rows[..n], row);
      assert rows == rows[..n] + [rows[n]];
    }
  }

  lemma {:induction false} OwedIsHeld(c: Collected, cached: set<int>, seen: seq<Term>, add: bool, rows: seq<Aev>)
    requires Collects(c, cached, seen, add) && forall a :: OfAttribute(rows, a) == List(c, a)
    ensures forall row :: multiset(rows)[row] == Owed(cached, seen, add, row)
    ensures forall a | a in cached :: OfAttribute(rows, a) == Asked(seen, add, a)
  {
    forall row: Aev ensures multiset(rows)[row] == Owed(cached, seen, add, row) {
      CountOfAttribute(rows, row);
      assert OfAttribute(rows, row.a) == List(c, row.a);
    }
    forall a | a in cached ensures OfAttribute(rows, a) == Asked(seen, add, a) {
      assert OfAttribute(rows, a) == List(c, a);
    }
  }

  class Watcher {
    const cached: set<int>
    var assertions: Collected
    var retractions: Collected
    ghost var seen: seq<Term>

    ghost predicate Valid()
      reads this
    {
      Collects(assertions, cached, seen, true) && Collects(retractions, cached, seen, false)
    }

    constructor (attributes: set<int>)
      ensures Valid() && seen == [] && cached == attributes
    {
      cached := attributes;
      assertions, retractions, seen := map[], map[], [];
    }

    method Causet(term: Term)
      requires Valid()
      modifies this
      ensures Valid() && seen == old(seen) + [term]
    {
      if term.add {
        FileCollects(assertions, cached, seen, true, term.row);
        OtherTermOwesNothing(retractions, cached, seen, false, term);
        assertions := File(assertions, cached, term.row);
      } else {
        FileCollects(retractions, cached, seen, false, term.row);
        OtherTermOwesNothing(assertions, cached, seen, true, term);
        retractions := File(retractions, cached, term.row);
      }
      seen := seen + [term];
    }

    /** Flattens the collection, leaving out the placeholders. */
    method Expand(c: Collected) returns (rows: seq<Aev>)
      requires Filed(c)
      ensures forall a :: OfAttribute(rows, a) == List(c, a)
    {
      rows := [];
      var todo := c.Keys;
      while todo != {}
        invariant todo <= c.Keys
        invariant Expanded(c, todo, rows)
        decreases todo
      {
        var a := Pick(todo);
        ExpandNext(c, todo, rows, a);
        if c[a].Some? {
          rows := rows + c[a].value;
        }
        todo := todo - {a};
      }
    }

    /** Hands over the rows of the cached attributes, each as often as it was seen and those of one
        attribute in the order they were seen in. */
    method Done() returns (rs: seq<Aev>, ts: seq<Aev>)
      requires Valid()
      ensures forall a | a in cached :: OfAttribute(rs, a) == Asked(seen, false, a)
      ensures forall a | a in cached :: OfAttribute(ts, a) == Asked(seen, true, a)
      ensures forall row :: multiset(rs)[row] == Owed(cached, seen, false, row)
      ensures forall row :: multiset(ts)[row] == Owed(cached, seen, true, row)
    {
      rs := Expand(retractions);
      ts := Expand(assertions);
      OwedIsHeld(retractions, cached, seen, false, rs);
      OwedIsHeld(assertions, cached, seen, true, ts);
    }
  }

  // ---------- what a transaction asks for ----------

  function RowOf(f: T.Fact): Aev {
    Aev(f.a, f.e, f.v)
  }

  ghost function RowsOf(fs: set<T.Fact>): set<Aev> {
    set f | f in fs :: RowOf(f)
  }

  /** `rs` and `ts` list the retractions and assertions a transaction asks for, each once. */
  ghost predicate Reports(txn: T.Txn, cached: set<int>, rs: seq<Aev>, ts: seq<Aev>) {
    && Distinct(rs) && Distinct(ts)
    && (forall row :: row in rs <==> row.a in cached && exists f :: TransactorIntent.Named(txn, f) && RowOf(f) == row)
    && (forall row :: row in ts <==>
         row.a in cached && exists f :: TransactorIntent.Asserted(txn, f) && RowOf(f) == row)
  }

  ghost function Terms(ts: seq<T.SearchRow>): seq<Term> {
    seq(|ts|, i requires 0 <= i < |ts| => Term(ts[i].added, RowOf(ts[i].fact)))
  }

  ghost function AllTerms(txn: T.Txn): seq<Term> {
    Terms(txn.exact) + Terms(txn.inexact)
  }

  /** Facts of one schema are told apart by entity, attribute and value. */
  lemma {:induction false} RowsTellApart(st: T.Schema, f: T.Fact, g: T.Fact)
    requires f.a in st && g.a in st && f.tag == st[f.a].tag && g.tag == st[g.a].tag
    requires RowOf(f) == RowOf(g)
    ensures f == g
  {
  }

  lemma {:induction false} TermResult(d: T.Causets, txn: T.Txn, i: nat) returns (r: T.SearchResult)
    requires i < |AllTerms(txn)|
    ensures r in T.SearchResults(txn.exact, txn.inexact, d)
    ensures AllTerms(txn)[i] == Term(r.t.added, RowOf(r.t.fact))
    ensures i == if r.kind.Exact? then r.index else |txn.exact| + r.index
  {
    var n := |txn.exact|;
    if i < n {
      r := T.ResultOf(T.Exact, txn.exact, d, i);
    } else {
      r := T.ResultOf(T.Inexact, txn.inexact, d, i - n);
    }
  }

  /** The index over search results admits no term twice. */
  lemma {:induction false} TermsDistinct(st: T.Schema, d: T.Causets, txn: T.Txn)
    requires TransactorIntent.Guarded(st, d, txn)
    ensures Distinct(AllTerms(txn))
  {
    var terms := AllTerms(txn);
    forall i, j | 0 <= i < j < |terms| ensures terms[i] != terms[j] {
      if terms[i] == terms[j] {
        var r := TermResult(d, txn, i);
        var s := TermResult(d, txn, j);
        T.ResultMeaning(st, d, txn, r);
        T.ResultMeaning(st, d, txn, s);
        RowsTellApart(st, r.t.fact, s.t.fact);
        assert false;
      }
    }
  }

  lemma {:induction false} TermIsMention(ts: seq<T.SearchRow>, added: bool, row: Aev)
    ensures Term(added, row) in Terms(ts) <==> exists f :: TransactorIntent.Mentions(ts, f, added) && RowOf(f) == row
  {
    if Term(added, row) in Terms(ts) {
      var i :| 0 <= i < |ts| && Terms(ts)[i] == Term(added, row);
      assert TransactorIntent.Mentions(ts, ts[i].fact, added);
    }
    if f :| TransactorIntent.Mentions(ts, f, added) && RowOf(f) == row {
      var i :| 0 <= i < |ts| && ts[i].fact == f && ts[i].added == added;
      assert Terms(ts)[i] == Term(added, row);
    }
  }

  lemma {:induction false} OwedOnce(st: T.Schema, d: T.Causets, txn: T.Txn, seen: seq<Term>, cached: set<int>, row: Aev)
    requires TransactorIntent.Guarded(st, d, txn) && multiset(seen) == multiset(AllTerms(txn))
    ensures Owed(cached, seen, false, row) ==
            if row.a in cached && exists f :: TransactorIntent.Named(txn, f) && RowOf(f) == row then 1 else 0
    ensures Owed(cached, seen, true, row) ==
            if row.a in cached && exists f :: TransactorIntent.Asserted(txn, f) && RowOf(f) == row then 1 else 0
  {
    TermsDistinct(st, d, txn);
    DistinctCount(AllTerms(txn), Term(false, row));
    DistinctCount(AllTerms(txn), Term(true, row));
    TermIsMention(txn.exact, false, row);
    TermIsMention(txn.inexact, false, row);
    TermIsMention(txn.exact, true, row);
    TermIsMention(txn.inexact, true, row);
  }

  /** A watcher that saw the terms of a successful transaction, in any order, reports them. */
  lemma {:induction false} DoneReports(st: T.Schema, d: T.Causets, txn: T.Txn, seen: seq<Term>, cached: set<int>,
      rs: seq<Aev>, ts: seq<Aev>)
    requires TransactorIntent.Guarded(st, d, txn) && multiset(seen) == multiset(AllTerms(txn))
    requires forall row :: multiset(rs)[row] == Owed(cached, seen, false, row)
    requires forall row :: multiset(ts)[row] == Owed(cached, seen, true, row)
    ensures Reports(txn, cached, rs, ts)
  {
    forall row
      ensures multiset(rs)[row] <= 1 && multiset(ts)[row] <= 1
      ensures row in rs <==> row.a in cached && exists f :: TransactorIntent.Named(txn, f) && RowOf(f) == row
      ensures row in ts <==> row.a in cached && exists f :: TransactorIntent.Asserted(txn, f) && RowOf(f) == row
    {
      OwedOnce(st, d, txn, seen, cached, row);
      assert row in rs <==> row in multiset(rs);
      assert row in ts <==> row in multiset(ts);
    }
    CountedOnce(rs);
    CountedOnce(ts);
  }
}
