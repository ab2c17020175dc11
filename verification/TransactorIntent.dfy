/** What one transaction does to the fact table, said without the search tables: which facts it
    retracts and adds, and exactly when that is what the transaction asked for. */
module TransactorIntent {
  import opened Options
  import opened Transactor

  ghost predicate Mentions(ts: seq<SearchRow>, f: Fact, added: bool) {
    exists i :: 0 <= i < |ts| && ts[i].fact == f && ts[i].added == added
  }

  ghost predicate Asserted(txn: Txn, f: Fact) {
    Mentions(txn.exact, f, true) || Mentions(txn.inexact, f, true)
  }

  ghost predicate Named(txn: Txn, f: Fact) {
    Mentions(txn.exact, f, false) || Mentions(txn.inexact, f, false)
  }

  ghost predicate SameSlot(t: SearchRow, g: Fact) {
    t.fact.e == g.e && t.fact.a == g.a
  }

  /** A cardinality-one addition of another value takes the fact's place. */
  ghost predicate Replaced(txn: Txn, g: Fact) {
    exists i :: 0 <= i < |txn.inexact| && txn.inexact[i].added && SameSlot(txn.inexact[i], g) &&
        txn.inexact[i].fact.v != g.v
  }

  /** A cardinality-one retraction of any value of the same entity and attribute. */
  ghost predicate SlotRetracted(txn: Txn, g: Fact) {
    exists i :: 0 <= i < |txn.inexact| && !txn.inexact[i].added && SameSlot(txn.inexact[i], g)
  }

  ghost predicate Struck(txn: Txn, g: Fact) {
    Named(txn, g) || Replaced(txn, g) || SlotRetracted(txn, g)
  }

  /** The table the transaction asks for: named and replaced facts out, asserted facts in. */
  ghost predicate Intended(view: set<Fact>, txn: Txn, f: Fact) {
    Asserted(txn, f) || (f in view && !Named(txn, f) && !Replaced(txn, f))
  }

  ghost predicate Guarded(schema: Schema, d: Causets, txn: Txn) {
    && Invariant(schema, d) && Routed(schema, txn) && UniqueInexact(txn.inexact)
    && UniqueResults(SearchResults(txn.exact, txn.inexact, d))
  }

  lemma {:induction false} AddedIsMeant(schema: Schema, d: Causets, txn: Txn, f: Fact)
    requires Guarded(schema, d, txn) && f in AddedFacts(SearchResults(txn.exact, txn.inexact, d))
    ensures Asserted(txn, f) && f !in View(d)
  {
    var rs := SearchResults(txn.exact, txn.inexact, d);
    DeltaIsMinimal(schema, d, txn);
    var r :| r in rs && IsAddition(r) && r.t.fact == f;
    if r.kind.Exact? { assert txn.exact[r.index] == r.t; } else { assert txn.inexact[r.index] == r.t; }
  }

  lemma {:induction false} MissIsAdded(schema: Schema, d: Causets, txn: Txn, f: Fact, r: SearchResult)
    requires Guarded(schema, d, txn) && f !in View(d)
    requires r in SearchResults(txn.exact, txn.inexact, d) && r.t.fact == f && r.t.added
    ensures f in AddedFacts(SearchResults(txn.exact, txn.inexact, d))
  {
    ResultMeaning(schema, d, txn, r);
    if r.hit.Some? {
      assert d[r.hit.value.rid].fact in View(d);
    }
    assert IsAddition(r);
  }

  /** The additions are the asserted facts the table lacks. */
  lemma {:induction false} AddedExactly(schema: Schema, d: Causets, txn: Txn, f: Fact)
    requires Guarded(schema, d, txn)
    ensures f in AddedFacts(SearchResults(txn.exact, txn.inexact, d)) <==> Asserted(txn, f) && f !in View(d)
  {
    if f in AddedFacts(SearchResults(txn.exact, txn.inexact, d)) {
      AddedIsMeant(schema, d, txn, f);
    } else if Asserted(txn, f) && f !in View(d) {
      var r := MentionedResult(schema, d, txn, f, true);
      MissIsAdded(schema, d, txn, f, r);
    }
  }

  lemma {:induction false} SlotHit(schema: Schema, d: Causets, txn: Txn, i: nat, g: Fact)
    requires Guarded(schema, d, txn) && g in View(d)
    requires i < |txn.inexact| && SameSlot(txn.inexact[i], g)
    requires !txn.inexact[i].added || txn.inexact[i].fact.v != g.v
    ensures g in RetractedFacts(SearchResults(txn.exact, txn.inexact, d))
  {
    var rid :| rid in d && d[rid].fact == g;
    var r := ResultOf(Inexact, txn.inexact, d, i);
    OneHit(d, txn, i, r, rid);
    ResultMeaning(schema, d, txn, r);
    assert IsRetraction(r) && HitFact(r) == g;
  }

  lemma {:induction false} NamedExactHit(schema: Schema, d: Causets, txn: Txn, i: nat)
    requires Guarded(schema, d, txn)
    requires i < |txn.exact| && !txn.exact[i].added && txn.exact[i].fact in View(d)
    ensures txn.exact[i].fact in RetractedFacts(SearchResults(txn.exact, txn.inexact, d))
  {
    var r := ResultOf(Exact, txn.exact, d, i);
    ResultMeaning(schema, d, txn, r);
    var rid :| rid in d && d[rid].fact == txn.exact[i].fact;
    assert Joins(Exact, r.t, d[rid]);
    assert IsRetraction(r) && HitFact(r) == txn.exact[i].fact;
  }

  lemma {:induction false} RetractedIsMeant(schema: Schema, d: Causets, txn: Txn, g: Fact)
    requires Guarded(schema, d, txn) && g in RetractedFacts(SearchResults(txn.exact, txn.inexact, d))
    ensures g in View(d) && Struck(txn, g)
  {
    var rs := SearchResults(txn.exact, txn.inexact, d);
    var r :| r in rs && IsRetraction(r) && HitFact(r) == g;
    ResultMeaning(schema, d, txn, r);
    if r.kind.Exact? { assert txn.exact[r.index] == r.t; } else { assert txn.inexact[r.index] == r.t; }
  }

  lemma {:induction false} MeantIsRetracted(schema: Schema, d: Causets, txn: Txn, g: Fact)
    requires Guarded(schema, d, txn)
    requires g in View(d) && Struck(txn, g)
    ensures g in RetractedFacts(SearchResults(txn.exact, txn.inexact, d))
  {
    if i :| 0 <= i < |txn.exact| && txn.exact[i].fact == g && !txn.exact[i].added {
      NamedExactHit(schema, d, txn, i);
    } else if i :| 0 <= i < |txn.inexact| && SameSlot(txn.inexact[i], g) &&
                   (!txn.inexact[i].added || txn.inexact[i].fact.v != g.v) {
      SlotHit(schema, d, txn, i, g);
    }
  }

  /** The retractions are the stored facts that are named, replaced, or share the entity and
      attribute of any cardinality-one retraction, whatever value it names. */
  lemma {:induction false} RetractedExactly(schema: Schema, d: Causets, txn: Txn, g: Fact)
    requires Guarded(schema, d, txn)
    ensures g in RetractedFacts(SearchResults(txn.exact, txn.inexact, d)) <==>
            g in View(d) && Struck(txn, g)
  {
    if g in RetractedFacts(SearchResults(txn.exact, txn.inexact, d)) {
      RetractedIsMeant(schema, d, txn, g);
    } else if g in View(d) && Struck(txn, g) {
      MeantIsRetracted(schema, d, txn, g);
    }
  }

  /** The indexes refuse a transaction that both asserts and retracts a fact, or both asserts and
      replaces it. */
  lemma {:induction false} NoConflict(schema: Schema, d: Causets, txn: Txn, f: Fact)
    requires Guarded(schema, d, txn) && Asserted(txn, f)
    ensures !Named(txn, f) && !Replaced(txn, f)
  {
    if Named(txn, f) {
      var r := MentionedResult(schema, d, txn, f, true);
      var s := MentionedResult(schema, d, txn, f, false);
      assert false;
    }
  }

  lemma {:induction false} MentionedResult(schema: Schema, d: Causets, txn: Txn, f: Fact, added: bool)
      returns (r: SearchResult)
    requires Mentions(txn.exact, f, added) || Mentions(txn.inexact, f, added)
    ensures r in SearchResults(txn.exact, txn.inexact, d) && r.t.fact == f && r.t.added == added
  {
    if i :| 0 <= i < |txn.exact| && txn.exact[i].fact == f && txn.exact[i].added == added {
      r := ResultOf(Exact, txn.exact, d, i);
    } else {
      var i :| 0 <= i < |txn.inexact| && txn.inexact[i].fact == f && txn.inexact[i].added == added;
      r := ResultOf(Inexact, txn.inexact, d, i);
    }
  }

  /** One fact through one transaction: what is struck goes, and only what was absent comes. */
  lemma {:induction false} ViewAfter(schema: Schema, d: Causets, txn: Txn, d': Causets, f: Fact)
    requires Invariant(schema, d) && Materialized(schema, d, txn, d')
    ensures f in View(d') <==> if f in View(d) then !Struck(txn, f) else Asserted(txn, f)
    ensures Asserted(txn, f) ==> !Named(txn, f) && !Replaced(txn, f)
  {
    MaterializedView(schema, d, txn, d');
    AddedExactly(schema, d, txn, f);
    RetractedExactly(schema, d, txn, f);
    if Asserted(txn, f) {
      NoConflict(schema, d, txn, f);
    }
  }

  /** No cardinality-one retraction strikes a stored value that the transaction neither names nor
      replaces. */
  ghost predicate NoStrayRetraction(view: set<Fact>, txn: Txn) {
    forall g | g in view && SlotRetracted(txn, g) :: Named(txn, g) || Replaced(txn, g)
  }

  /** The transaction produces the table it asks for if and only if no retraction strays. */
  lemma {:induction false} IntentIffNoStray(schema: Schema, d: Causets, txn: Txn, d': Causets)
    requires Invariant(schema, d) && Materialized(schema, d, txn, d')
    ensures (forall f :: f in View(d') <==> Intended(View(d), txn, f)) <==> NoStrayRetraction(View(d), txn)
  {
    forall f
      ensures (f in View(d') <==> Intended(View(d), txn, f)) <==>
              !(f in View(d) && SlotRetracted(txn, f) && !Named(txn, f) && !Replaced(txn, f))
    {
      ViewAfter(schema, d, txn, d', f);
    }
  }

  /** Retracting a cardinality-one value that is not the stored one removes the stored one. */
  lemma {:induction false} StrayRetractionExample() returns (schema: Schema, d: Causets, txn: Txn)
    ensures Guarded(schema, d, txn)
    ensures var stored, named := Fact(1, 10, Number(7.0), 5), Fact(1, 10, Number(5.0), 5);
            && View(d) == {stored} && Named(txn, named) && !Named(txn, stored)
            && RetractedFacts(SearchResults(txn.exact, txn.inexact, d)) == {stored}
  {
    var flags := Flags(false, false, false, false);
    var stored, named := Fact(1, 10, Number(7.0), 5), Fact(1, 10, Number(5.0), 5);
    schema := map[10 := Attribute(false, 5)];
    d := map[0 := CausetRow(stored, 100, flags)];
    txn := Txn(101, [], [SearchRow(named, false, flags)]);
    assert txn.inexact[0].fact == named;
    var rs := SearchResults(txn.exact, txn.inexact, d);
    assert Joins(Inexact, txn.inexact[0], d[0]);
    assert rs == {SearchResult(txn.inexact[0], Inexact, 0, Some(Hit(0, Number(7.0))))};
    assert View(d) == {stored};
    forall g ensures g in RetractedFacts(rs) <==> g == stored {
      RetractedExactly(schema, d, txn, g);
    }
  }
}
