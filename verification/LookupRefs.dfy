/** Resolving lookup refs [a v] to entities in chunks that respect the limit on bound variables. */
module LookupRefs {
  import opened Transactor

  datatype Av = Av(a: int, v: Value, tag: int)

  const INITIAL_SEARCH_ID := 2000
  const BINDINGS_PER_ROW := 4

  /** An indexed assertion [e a v] is in the store. */
  ghost predicate Resolves(d: Causets, av: Av, e: int) {
    exists rid :: rid in d && d[rid].flags.avet && d[rid].fact == Fact(e, av.a, av.v, av.tag)
  }

  // ---------- chunking ----------

  function ChunkEnd(n: nat, size: nat, pos: nat): nat
    requires pos < n
  {
    if pos + size < n then pos + size else n
  }

  /** No chunk binds as many variables as the limit. */
  ghost predicate ChunksFit(n: nat, maxVars: nat) {
    forall k: nat {:trigger k * (maxVars / BINDINGS_PER_ROW)} :: k * (maxVars / BINDINGS_PER_ROW) < n ==>
      BINDINGS_PER_ROW * (ChunkEnd(n, maxVars / BINDINGS_PER_ROW, k * (maxVars / BINDINGS_PER_ROW)) -
                          k * (maxVars / BINDINGS_PER_ROW)) < maxVars
  }

  /** The chunk assertion holds for every list exactly when the limit is not a multiple of four, and
      otherwise for the lists shorter than one chunk. */
  lemma {:induction false} ChunksFitIff(n: nat, maxVars: nat)
    requires maxVars >= BINDINGS_PER_ROW
    ensures ChunksFit(n, maxVars) <==> maxVars % BINDINGS_PER_ROW != 0 || n < maxVars / BINDINGS_PER_ROW
  {
    var size := maxVars / BINDINGS_PER_ROW;
    if maxVars % BINDINGS_PER_ROW == 0 && n >= size {
      assert 0 * size < n;
      assert ChunkEnd(n, size, 0) == size;
    }
    if maxVars % BINDINGS_PER_ROW == 0 && n < size {
      forall k: nat | k * size < n ensures BINDINGS_PER_ROW * (ChunkEnd(n, size, k * size) - k * size) < maxVars {
        assert k * size >= 0;
      }
    }
  }

  // ---------- the lookup ----------

  function Matches(d: Causets, avs: seq<Av>, lo: nat, hi: nat): set<(int, int)>
    requires lo <= hi <= |avs|
  {
    set i, rid | lo <= i < hi && rid in d && d[rid].flags.avet &&
                 d[rid].fact == Fact(d[rid].fact.e, avs[i].a, avs[i].v, avs[i].tag) ::
      (INITIAL_SEARCH_ID + i, d[rid].fact.e)
  }

  /** The rows of one statement: a search id and an entity each, in no particular order. */
  method QueryChunk(d: Causets, avs: seq<Av>, lo: nat, hi: nat) returns (rows: seq<(int, int)>)
    requires lo <= hi <= |avs|
    ensures forall x :: x in rows <==> x in Matches(d, avs, lo, hi)
  {
    rows := [];
    var todo := Matches(d, avs, lo, hi);
    while todo != {}
      invariant todo <= Matches(d, avs, lo, hi)
      invariant forall x :: x in rows <==> x in Matches(d, avs, lo, hi) && x !in todo
    {
      var x :| x in todo;
      rows := rows + [x];
      todo := todo - {x};
    }
  }

  /** `rows` holds the matches of the first `n` pairs. */
  ghost predicate Covers(d: Causets, avs: seq<Av>, n: nat, rows: seq<(int, int)>)
    requires n <= |avs|
  {
    forall x :: x in rows <==> x in Matches(d, avs, 0, n)
  }

  lemma {:induction false} MatchesSplit(d: Causets, avs: seq<Av>, m: nat, n: nat)
    requires m <= n <= |avs|
    ensures Matches(d, avs, 0, n) == Matches(d, avs, 0, m) + Matches(d, avs, m, n)
  {
  }

  /** The chunked lookup finds exactly the pairs with an indexed assertion, each with an entity it
      is asserted of. */
  method ResolveAvs(d: Causets, avs: seq<Av>, maxVars: nat) returns (m: map<Av, int>)
    requires maxVars >= BINDINGS_PER_ROW && ChunksFit(|avs|, maxVars)
    ensures forall av :: av in m <==> av in avs && exists e :: Resolves(d, av, e)
    ensures forall av | av in m :: Resolves(d, av, m[av])
  {
    var size := maxVars / BINDINGS_PER_ROW;
    var rows: seq<(int, int)> := [];
    var pos := 0;
    ghost var k: nat := 0;
    while pos < |avs|
      invariant 0 <= pos <= |avs|
      invariant pos < |avs| ==> pos == k * size
      invariant Covers(d, avs, pos, rows)
    {
      var end := ChunkEnd(|avs|, size, pos);
      assert BINDINGS_PER_ROW * (end - pos) < maxVars;
      assert (k + 1) * size == k * size + size;
      k := k + 1;
      var found := QueryChunk(d, avs, pos, end);
      MatchesSplit(d, avs, pos, end);
      rows := rows + found;
      pos := end;
    }
    m := map[];
    var i := 0;
    while i < |rows|
      invariant 0 <= i <= |rows|
      invariant forall av | av in m :: av in avs && Resolves(d, av, m[av])
      invariant forall j | 0 <= j < i ::
                0 <= rows[j].0 - INITIAL_SEARCH_ID < |avs| && avs[rows[j].0 - INITIAL_SEARCH_ID] in m
    {
      assert rows[i] in rows;
      m := m[avs[rows[i].0 - INITIAL_SEARCH_ID] := rows[i].1];
      i := i + 1;
    }
    forall av | av in avs && exists e :: Resolves(d, av, e) ensures av in m {
      AllCovered(d, avs, rows, m, av);
    }
  }

  lemma {:induction false} AllCovered(d: Causets, avs: seq<Av>, rows: seq<(int, int)>, m: map<Av, int>, av: Av)
    requires Covers(d, avs, |avs|, rows)
    requires forall j | 0 <= j < |rows| ::
             0 <= rows[j].0 - INITIAL_SEARCH_ID < |avs| && avs[rows[j].0 - INITIAL_SEARCH_ID] in m
    requires av in avs && exists e :: Resolves(d, av, e)
    ensures av in m
  {
    var k :| 0 <= k < |avs| && avs[k] == av;
    var e :| Resolves(d, av, e);
    var rid :| rid in d && d[rid].flags.avet && d[rid].fact == Fact(e, av.a, av.v, av.tag);
    assert (INITIAL_SEARCH_ID + k, e) in Matches(d, avs, 0, |avs|);
    var j :| 0 <= j < |rows| && rows[j] == (INITIAL_SEARCH_ID + k, e);
  }

  /** A limit of four variables refuses even a single pair. */
  lemma {:induction false} ChunkAssertionFailsExample()
    ensures !ChunksFit(1, 4) && ChunksFit(1, 5)
  {
    ChunksFitIff(1, 4);
    ChunksFitIff(1, 5);
  }
}
