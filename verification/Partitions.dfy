/** Reading the partition map back from the log: entities are grouped by partition with a CASE over
    the known partitions in order of their ends, and joined with the known partitions. */
module Partitions {
  import opened Options

  datatype Name = Name(text: string)
  datatype Part = Part(start: int, end: int, allowExcision: bool)
  datatype Partition = Partition(part: Part, index: int)

  // ---------- the `parts` view ----------

  /** The partitions of the CASE expression, by ascending end. */
  ghost predicate OrderedByEnd(known: map<Name, Part>, order: seq<Name>) {
    && (forall i | 0 <= i < |order| :: order[i] in known)
    && (forall p | p in known :: p in order)
    && (forall i, j | 0 <= i < j < |order| :: order[i] != order[j] && known[order[i]].end <= known[order[j]].end)
  }

  /** The first WHEN that applies; no ELSE, so NULL if none does. */
  function Case(known: map<Name, Part>, order: seq<Name>, e: int): (r: Option<Name>)
    requires forall i | 0 <= i < |order| :: order[i] in known
    ensures r.Some? ==> r.value in order && e <= known[r.value].end
    ensures r.None? ==> forall i | 0 <= i < |order| :: known[order[i]].end < e
  {
    if order == [] then None
    else if e <= known[order[0]].end then Some(order[0])
    else Case(known, order[1..], e)
  }

  /** max(e) + 1 over the group of one partition, if the group exists. */
  function GroupIndex(known: map<Name, Part>, order: seq<Name>, es: seq<int>, group: Option<Name>): (r: Option<int>)
    requires forall i | 0 <= i < |order| :: order[i] in known
    ensures r.None? <==> forall i | 0 <= i < |es| :: Case(known, order, es[i]) != group
    ensures r.Some? ==> forall i | 0 <= i < |es| && Case(known, order, es[i]) == group :: es[i] < r.value
    ensures r.Some? ==> exists i :: 0 <= i < |es| && Case(known, order, es[i]) == group && es[i] + 1 == r.value
  {
    if es == [] then None
    else
      var n := |es| - 1;
      var rest := GroupIndex(known, order, es[..n], group);
      if Case(known, order, es[n]) != group then rest
      else if rest.None? || rest.value <= es[n] + 1 then Some(es[n] + 1)
      else rest
  }

  // ---------- the query ----------

  /** `part NOT IN (SELECT part FROM parts)`: unknown, hence not selected, when the list holds a
      NULL. */
  predicate NotIn(known: map<Name, Part>, order: seq<Name>, es: seq<int>, p: Name)
    requires forall i | 0 <= i < |order| :: order[i] in known
  {
    forall i | 0 <= i < |es| :: Case(known, order, es[i]).Some? && Case(known, order, es[i]) != Some(p)
  }

  function ReadPartitionMap(known: map<Name, Part>, order: seq<Name>, es: seq<int>): map<Name, Partition>
    requires forall i | 0 <= i < |order| :: order[i] in known
  {
    (map p | p in known && GroupIndex(known, order, es, Some(p)).Some? ::
       Partition(known[p], GroupIndex(known, order, es, Some(p)).value)) +
    (map p | p in known && NotIn(known, order, es, p) :: Partition(known[p], known[p].start))
  }

  // ---------- what it reads ----------

  /** No logged entity lies beyond every partition. */
  ghost predicate WithinEnds(known: map<Name, Part>, es: seq<int>) {
    forall i | 0 <= i < |es| :: exists p :: p in known && es[i] <= known[p].end
  }

  ghost predicate Occupied(known: map<Name, Part>, order: seq<Name>, es: seq<int>, p: Name)
    requires forall i | 0 <= i < |order| :: order[i] in known
  {
    exists i :: 0 <= i < |es| && Case(known, order, es[i]) == Some(p)
  }

  /** Every known partition is read back if and only if no logged entity lies beyond the last end,
      or no partition is empty. */
  lemma {:induction false} AllPartitionsIff(known: map<Name, Part>, order: seq<Name>, es: seq<int>)
    requires OrderedByEnd(known, order)
    ensures ReadPartitionMap(known, order, es).Keys <= known.Keys
    ensures ReadPartitionMap(known, order, es).Keys == known.Keys <==>
            WithinEnds(known, es) || forall p | p in known :: Occupied(known, order, es, p)
  {
  }

  /** A partition that ends at or above every entity, as the last bootstrap partition does, is
      enough to read all of them back. */
  lemma {:induction false} LastEndCovers(known: map<Name, Part>, order: seq<Name>, es: seq<int>, last: Name)
    requires OrderedByEnd(known, order) && last in known
    requires forall i | 0 <= i < |es| :: es[i] <= known[last].end
    ensures ReadPartitionMap(known, order, es).Keys == known.Keys
  {
    assert WithinEnds(known, es);
    AllPartitionsIff(known, order, es);
  }

  /** Partitions do not overlap. */
  ghost predicate Disjoint(known: map<Name, Part>) {
    && (forall p | p in known :: known[p].start <= known[p].end)
    && (forall p, q | p in known && q in known && p != q ::
         known[p].end < known[q].start || known[q].end < known[p].start)
  }

  /** The CASE puts an entity in the partition that contains it. */
  lemma {:induction false} CaseFindsContainer(known: map<Name, Part>, order: seq<Name>, e: int, p: Name)
    requires OrderedByEnd(known, order) && Disjoint(known)
    requires p in known && known[p].start <= e <= known[p].end
    ensures Case(known, order, e) == Some(p)
  {
    CaseFindsFrom(known, order, e, p);
  }

  lemma {:induction false} CaseFindsFrom(known: map<Name, Part>, order: seq<Name>, e: int, p: Name)
    requires forall i | 0 <= i < |order| :: order[i] in known
    requires forall i, j | 0 <= i < j < |order| :: known[order[i]].end <= known[order[j]].end
    requires Disjoint(known) && p in known && p in order && known[p].start <= e <= known[p].end
    ensures Case(known, order, e) == Some(p)
  {
    if order[0] != p {
      assert p in order[1..];
      var j :| 0 < j < |order| && order[j] == p;
      assert known[order[0]].end <= known[p].end;
      CaseFindsFrom(known, order[1..], e, p);
    }
  }

  /** Each partition read back has its own bounds and a next index above every logged entity it
      contains; a partition with nothing logged starts at its start. */
  lemma {:induction false} IndexIsNext(known: map<Name, Part>, order: seq<Name>, es: seq<int>, p: Name)
    requires OrderedByEnd(known, order) && Disjoint(known)
    requires p in ReadPartitionMap(known, order, es)
    ensures var r := ReadPartitionMap(known, order, es)[p];
            && p in known && r.part == known[p]
            && (forall i | 0 <= i < |es| && known[p].start <= es[i] <= known[p].end :: es[i] < r.index)
            && (if Occupied(known, order, es, p)
                then exists i :: 0 <= i < |es| && Case(known, order, es[i]) == Some(p) && es[i] + 1 == r.index
                else r.index == known[p].start)
  {
    var group := GroupIndex(known, order, es, Some(p));
    forall i | 0 <= i < |es| && known[p].start <= es[i] <= known[p].end
      ensures Case(known, order, es[i]) == Some(p)
    {
      CaseFindsContainer(known, order, es[i], p);
    }
    if group.Some? {
      var i :| 0 <= i < |es| && Case(known, order, es[i]) == Some(p);
      assert !NotIn(known, order, es, p);
    }
  }

  /** A partition with nothing logged is not read back once some entity lies beyond every end. */
  lemma {:induction false} BeyondDropsEmpty(known: map<Name, Part>, order: seq<Name>, es: seq<int>, p: Name, i: nat)
    requires OrderedByEnd(known, order) && i < |es| && Case(known, order, es[i]).None?
    requires !Occupied(known, order, es, p)
    ensures p !in ReadPartitionMap(known, order, es)
  {
  }

  lemma {:induction false} TwoParts(a: Name, b: Name, known: map<Name, Part>)
    requires a != b && known == map[a := Part(0, 9, false), b := Part(10, 19, false)]
    ensures OrderedByEnd(known, [a, b]) && Disjoint(known)
    ensures Case(known, [a, b], 5) == Some(a) && Case(known, [a, b], 25) == None
  {
    var order := [a, b];
    assert order[0] == a && order[1] == b && order[1..] == [b] && [b][1..] == [];
  }

  /** One entity beyond the last end makes an empty partition disappear. */
  lemma {:induction false} PartitionDroppedExample(a: Name, b: Name) returns (known: map<Name, Part>,
      order: seq<Name>, es: seq<int>)
    requires a != b
    ensures OrderedByEnd(known, order) && Disjoint(known)
    ensures b in known && b !in ReadPartitionMap(known, order, es)
  {
    known, order, es := map[a := Part(0, 9, false), b := Part(10, 19, false)], [a, b], [5, 25];
    TwoParts(a, b, known);
    BeyondDropsEmpty(known, order, es, b, 1);
  }
}
