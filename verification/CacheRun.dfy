/** Store and cache over a whole run: every transaction feeds its terms through the watcher into a
    copy-on-write cache, which is committed.  The cache stays equal to scans of the fact table exactly
    as long as every transaction is followed. */
module CacheRun {
  import opened Options
  import T = Transactor
  import opened TransactorMarks
  import opened AttributeCache
  import opened CacheLayering
  import opened CacheLeaks
  import opened CacheCommit
  import opened CacheCommitted
  import opened CacheStore
  import opened CacheWatcher
  import opened CacheFollows

  // ---------- the store's laws ----------

  ghost function MarksOf(sc: Schema): Marks {
    map a | a in sc :: sc[a].unique
  }

  /** The table's invariant and its index over unique values are what the cache needs of the store. */
  lemma {:induction false} TableIsLawful(st: T.Schema, sc: Schema, d: T.Causets)
    requires T.Invariant(st, d) && SameSchema(st, sc) && Indexed(MarksOf(sc), d)
    ensures Lawful(sc, RowsOf(T.View(d)))
  {
    var view := T.View(d);
    IndexedIsUnique(MarksOf(sc), d);
    forall x, y | x in RowsOf(view) && y in RowsOf(view) && x.a == y.a && x.a in sc
      ensures x.e == y.e && !sc[x.a].multival ==> x.v == y.v
      ensures x.v == y.v && sc[x.a].unique ==> x.e == y.e
    {
      var f :| f in view && RowOf(f) == x;
      var g :| g in view && RowOf(g) == y;
    }
  }

  // ---------- one transaction ----------

  /** The watched rows go into a transaction's cache, and that is committed. */
  ghost predicate Committing(sc: Schema, c: Caches, rs: seq<Aev>, ts: seq<Aev>, c': Caches) {
    Ready(c, sc, rs) && Ready(c, sc, ts) && c' == Commit(Perform(FromCache(c), sc, Change(rs, ts)))
  }

  lemma {:induction false} ChangeKeepsForm(sc: Schema, c: Caches, rs: seq<Aev>, ts: seq<Aev>)
    requires WellFormed(c) && Ready(c, sc, rs) && Ready(c, sc, ts)
    ensures var over := Perform(FromCache(c), sc, Change(rs, ts)).overlay;
            WellFormed(over) && over.forward == c.forward && over.reverse == c.reverse
  {
    var over := FromCache(c).overlay;
    FoldWellFormed(over, Some(c), sc, rs, false);
    FoldKeepsFlags(over, Some(c), sc, rs, false);
    var over' := Fold(over, Some(c), sc, rs, false);
    FoldWellFormed(over', Some(c), sc, ts, true);
    FoldKeepsFlags(over', Some(c), sc, ts, true);
  }

  lemma {:induction false} CommitForm(ip: InProgress)
    requires WellFormed(ip.inner) && WellFormed(ip.overlay) && ip.unregF == {} && ip.unregR == {}
    requires ip.overlay.forward == ip.inner.forward && ip.overlay.reverse == ip.inner.reverse
    ensures var c' := Commit(ip);
            WellFormed(c') && c'.forward == ip.inner.forward && c'.reverse == ip.inner.reverse
  {
    CommitAbsorbs(ip);
    var kept := UnregisterSet(ip.inner, ip.unregF + ip.unregR);
    assert kept == ip.inner;
    AbsorbKeys(kept.single, ip.overlay.single, Tombstone);
    AbsorbKeys(kept.multi, ip.overlay.multi, NoValues);
    AbsorbKeys(kept.uniq, ip.overlay.uniq, Tombstone);
    AbsorbKeys(kept.nonUniq, ip.overlay.nonUniq, NoEntities);
  }

  lemma {:induction false} CommitKeepsForm(sc: Schema, c: Caches, rs: seq<Aev>, ts: seq<Aev>, c': Caches)
    requires WellFormed(c) && Committing(sc, c, rs, ts, c')
    ensures WellFormed(c') && c'.forward == c.forward && c'.reverse == c.reverse
  {
    ChangeKeepsForm(sc, c, rs, ts);
    CommitForm(Perform(FromCache(c), sc, Change(rs, ts)));
  }

  lemma {:induction false} CommitAgreesIff(sc: Schema, c: Caches, rs: seq<Aev>, ts: seq<Aev>, c': Caches,
      store: set<Aev>)
    requires WellFormed(c) && Committing(sc, c, rs, ts, c')
    ensures Agrees(c', sc, store) <==> Agrees(Update(c, None, sc, rs, ts), sc, store)
  {
    var op := Change(rs, ts);
    FreshRefines(c);
    PerformRefines(FromCache(c), c, sc, op);
    CommittedAgreesIff(Perform(FromCache(c), sc, op), Update(c, None, sc, rs, ts), sc, store);
  }

  // ---------- runs ----------

  datatype Feed = Feed(retractions: seq<Aev>, assertions: seq<Aev>)

  /** The k-th transaction reports its terms and its cache is committed. */
  ghost predicate FedAt(sc: Schema, txns: seq<T.Txn>, caches: seq<Caches>, feeds: seq<Feed>, k: nat)
    requires k < |txns| && |caches| == |txns| + 1 && |feeds| == |txns|
  {
    && Reports(txns[k], caches[k].forward + caches[k].reverse, feeds[k].retractions, feeds[k].assertions)
    && Committing(sc, caches[k], feeds[k].retractions, feeds[k].assertions, caches[k + 1])
  }

  /** A run of accepted transactions, fed to a cache from the `start`-th on. */
  ghost predicate FedRun(st: T.Schema, sc: Schema, dbs: seq<T.Db>, txns: seq<T.Txn>, caches: seq<Caches>,
      feeds: seq<Feed>, start: nat)
  {
    && AcceptedRun(st, MarksOf(sc), dbs, txns) && SameSchema(st, sc)
    && |caches| == |dbs| && |feeds| == |txns|
    && (forall k | start <= k < |txns| :: FedAt(sc, txns, caches, feeds, k))
  }

  /** Every lookup is a scan of the table, and entries exist only where flags are set. */
  ghost predicate InStep(sc: Schema, db: T.Db, c: Caches) {
    WellFormed(c) && Agrees(c, sc, RowsOf(T.View(db.causets)))
  }

  ghost predicate FollowedAt(sc: Schema, dbs: seq<T.Db>, txns: seq<T.Txn>, caches: seq<Caches>, feeds: seq<Feed>,
      k: nat)
    requires k < |txns| && |dbs| == |txns| + 1 && |caches| == |dbs| && |feeds| == |txns|
  {
    Followed(caches[k], sc, T.View(dbs[k].causets), txns[k], feeds[k].assertions)
  }

  /** One transaction keeps a cache in step if and only if it is followed. */
  lemma {:induction false} FedStepIff(st: T.Schema, sc: Schema, dbs: seq<T.Db>, txns: seq<T.Txn>, caches: seq<Caches>,
      feeds: seq<Feed>, start: nat, k: nat)
    requires FedRun(st, sc, dbs, txns, caches, feeds, start) && start <= k < |txns|
    requires InStep(sc, dbs[k], caches[k])
    ensures InStep(sc, dbs[k + 1], caches[k + 1]) <==> FollowedAt(sc, dbs, txns, caches, feeds, k)
  {
    var d, d', c, feed := dbs[k].causets, dbs[k + 1].causets, caches[k], feeds[k];
    assert T.StepAt(st, dbs, txns, k) && FedAt(sc, txns, caches, feeds, k);
    T.RunInvariant(st, dbs, txns, k);
    T.RunInvariant(st, dbs, txns, k + 1);
    RunIndexed(st, MarksOf(sc), dbs, txns, k + 1);
    TableIsLawful(st, sc, d');
    WatchedUpdateAgreesIff(st, sc, d, txns[k], d', c, feed.retractions, feed.assertions);
    CommitKeepsForm(sc, c, feed.retractions, feed.assertions, caches[k + 1]);
    CommitAgreesIff(sc, c, feed.retractions, feed.assertions, caches[k + 1], RowsOf(T.View(d')));
  }

  ghost predicate InStepFrom(sc: Schema, dbs: seq<T.Db>, caches: seq<Caches>, start: nat, n: nat)
    requires n < |dbs| == |caches|
  {
    forall k | start <= k <= n :: InStep(sc, dbs[k], caches[k])
  }

  ghost predicate FollowedFrom(sc: Schema, dbs: seq<T.Db>, txns: seq<T.Txn>, caches: seq<Caches>, feeds: seq<Feed>,
      start: nat, n: nat)
    requires n <= |txns| && |dbs| == |txns| + 1 && |caches| == |dbs| && |feeds| == |txns|
  {
    forall k | start <= k < n :: FollowedAt(sc, dbs, txns, caches, feeds, k)
  }

  lemma {:induction false} OneFurther(sc: Schema, dbs: seq<T.Db>, txns: seq<T.Txn>, caches: seq<Caches>,
      feeds: seq<Feed>, start: nat, n: nat)
    requires start <= n < |txns| && |dbs| == |txns| + 1 && |caches| == |dbs| && |feeds| == |txns|
    ensures InStepFrom(sc, dbs, caches, start, n + 1) <==>
            InStepFrom(sc, dbs, caches, start, n) && InStep(sc, dbs[n + 1], caches[n + 1])
    ensures FollowedFrom(sc, dbs, txns, caches, feeds, start, n + 1) <==>
            FollowedFrom(sc, dbs, txns, caches, feeds, start, n) && FollowedAt(sc, dbs, txns, caches, feeds, n)
  {
  }

  /** From any state in which the cache is in step, it stays in step up to the n-th state of the run if
      and only if every transaction up to there is followed. */
  lemma {:induction false} CacheFollowsRunIff(st: T.Schema, sc: Schema, dbs: seq<T.Db>, txns: seq<T.Txn>,
      caches: seq<Caches>, feeds: seq<Feed>, start: nat, n: nat)
    requires FedRun(st, sc, dbs, txns, caches, feeds, start) && start <= n < |dbs|
    requires InStep(sc, dbs[start], caches[start])
    ensures InStepFrom(sc, dbs, caches, start, n) <==> FollowedFrom(sc, dbs, txns, caches, feeds, start, n)
    decreases n
  {
    if n > start {
      var m := n - 1;
      CacheFollowsRunIff(st, sc, dbs, txns, caches, feeds, start, m);
      OneFurther(sc, dbs, txns, caches, feeds, start, m);
      if InStepFrom(sc, dbs, caches, start, m) {
        FedStepIff(st, sc, dbs, txns, caches, feeds, start, m);
      }
    }
  }

  /** In particular a cache that is empty of values, fed from the first transaction on, follows the fact
      table through the whole run if and only if every transaction is followed. */
  lemma {:induction false} CacheFollowsFromEmptyIff(st: T.Schema, sc: Schema, dbs: seq<T.Db>, txns: seq<T.Txn>,
      caches: seq<Caches>, feeds: seq<Feed>)
    requires FedRun(st, sc, dbs, txns, caches, feeds, 0)
    requires WellFormed(caches[0]) && Agrees(caches[0], sc, {})
    ensures InStepFrom(sc, dbs, caches, 0, |txns|) <==> FollowedFrom(sc, dbs, txns, caches, feeds, 0, |txns|)
  {
    assert RowsOf(T.View(map[])) == {};
    CacheFollowsRunIff(st, sc, dbs, txns, caches, feeds, 0, |txns|);
  }
}
