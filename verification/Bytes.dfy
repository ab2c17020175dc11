/** Byte strings and the order in which every key of the store is compared. */
module Bytes {
  type Byte = b: int | 0 <= b < 256
  type Key = seq<Byte>

  /** Lexicographic order; a proper prefix comes first. */
  predicate Less(a: Key, b: Key)
    decreases |a|
  {
    if b == [] then false
    else if a == [] then true
    else a[0] < b[0] || (a[0] == b[0] && Less(a[1..], b[1..]))
  }

  predicate LessEq(a: Key, b: Key) {
    a == b || Less(a, b)
  }

  lemma {:induction false} LessIrreflexive(a: Key)
    ensures !Less(a, a)
    decreases |a|
  {
    if a != [] {
      LessIrreflexive(a[1..]);
    }
  }

  lemma {:induction false} LessTransitive(a: Key, b: Key, c: Key)
    requires Less(a, b) && Less(b, c)
    ensures Less(a, c)
    decreases |a|
  {
    if a != [] && a[0] == b[0] && b[0] == c[0] {
      LessTransitive(a[1..], b[1..], c[1..]);
    }
  }

  lemma {:induction false} LessTotal(a: Key, b: Key)
    ensures Less(a, b) || a == b || Less(b, a)
    decreases |a|
  {
    if a != [] && b != [] && a[0] == b[0] {
      LessTotal(a[1..], b[1..]);
      assert a == [a[0]] + a[1..] && b == [b[0]] + b[1..];
    }
  }

  /** `a` and `b` first differ at position i, where `a` ends or has the smaller byte. */
  ghost predicate Precedes(a: Key, b: Key, i: nat) {
    i <= |a| && i < |b| && a[..i] == b[..i] && (i == |a| || a[i] < b[i])
  }

  /** Keys compare as unsigned bytes from the front. */
  lemma {:induction false} LessIff(a: Key, b: Key)
    ensures Less(a, b) <==> exists i :: Precedes(a, b, i)
    decreases |a|
  {
    if a == [] {
      assert b != [] ==> Precedes(a, b, 0);
    } else if b != [] {
      LessIff(a[1..], b[1..]);
      if a[0] < b[0] {
        assert Precedes(a, b, 0);
      }
      if i: nat :| Precedes(a[1..], b[1..], i) && a[0] == b[0] {
        assert a[..i + 1] == [a[0]] + a[1..][..i] && b[..i + 1] == [b[0]] + b[1..][..i];
        assert Precedes(a, b, i + 1);
      }
      if i: nat :| Precedes(a, b, i) && i > 0 {
        assert a[..i][0] == b[..i][0];
        assert a[1..][..i - 1] == a[..i][1..] && b[1..][..i - 1] == b[..i][1..];
        assert Precedes(a[1..], b[1..], i - 1);
      }
    }
  }

  /** The order facts as quantified statements, for proofs that compare many keys. */
  lemma {:induction false} Order()
    ensures forall a: Key :: !Less(a, a)
    ensures forall a: Key, b: Key, c: Key :: Less(a, b) && Less(b, c) ==> Less(a, c)
    ensures forall a: Key, b: Key :: Less(a, b) || a == b || Less(b, a)
  {
    forall a: Key ensures !Less(a, a) { LessIrreflexive(a); }
    forall a: Key, b: Key, c: Key | Less(a, b) && Less(b, c) ensures Less(a, c) { LessTransitive(a, b, c); }
    forall a: Key, b: Key ensures Less(a, b) || a == b || Less(b, a) { LessTotal(a, b); }
  }
}
