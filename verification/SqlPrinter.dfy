/** Printing a query's WHERE clause: the tokens a builder receives, read back with AND binding
    tighter than OR, mean what the constraints mean in three-valued logic. */
module SqlPrinter {
  import opened Options
  import opened Sequences

  datatype Operand = Column(name: string) | Number(n: int) | Value(text: string) | Unary(op: string, arg: Operand)
  datatype Affinity = NullAffinity | IntegerAffinity | RealAffinity | TextAffinity | BlobAffinity

  datatype Constraint =
    | Infix(op: string, left: Operand, right: Operand)
    | And(all: seq<Constraint>)
    | Or(any: seq<Constraint>)
    | In(item: Operand, list: seq<Operand>)
    | IsNull(value: Operand)
    | IsNotNull(value: Operand)
    | NotExists(subquery: string)
    | TypeCheck(value: Operand, affinity: Affinity)

  // `KEnd` stands for whatever keyword may follow the clause.
  datatype Token =
    | Name(name: string) | Num(n: int) | Literal(text: string) | Func(op: string) | Sub(query: string)
    | Open | Close | Comma | Operator(op: string)
    | KIsNull | KIsNotNull | KIn | KAnd | KOr | KNotExists | KWhere | KEnd
    | KValues | KSelect | KAs | KUnionAll

  // ---------- printing ----------

  function AffinityName(a: Affinity): string {
    match a
    case NullAffinity => "null"
    case IntegerAffinity => "integer"
    case RealAffinity => "real"
    case TextAffinity => "text"
    case BlobAffinity => "blob"
  }

  function PrintOperand(o: Operand): seq<Token> {
    match o
    case Column(name) => [Name(name)]
    case Number(n) => [Num(n)]
    case Value(text) => [Literal(text)]
    case Unary(op, arg) => [Func(op), Open] + PrintOperand(arg) + [Close]
  }

  /** The operands after the first, each behind a comma. */
  function CommaOperands(list: seq<Operand>): seq<Token> {
    if list == [] then []
    else CommaOperands(list[..|list| - 1]) + [Comma] + PrintOperand(list[|list| - 1])
  }

  function PrintOperands(list: seq<Operand>): seq<Token> {
    if list == [] then [] else PrintOperand(list[0]) + CommaOperands(list[1..])
  }

  function Print(c: Constraint): seq<Token>
    decreases c, 0
  {
    match c
    case Infix(op, left, right) => PrintOperand(left) + [Operator(op)] + PrintOperand(right)
    case IsNull(value) => PrintOperand(value) + [KIsNull]
    case IsNotNull(value) => PrintOperand(value) + [KIsNotNull]
    case And(all) => if all == [] then [Num(1)] else [Open] + Interposed(all, KAnd) + [Close]
    case Or(any) => if any == [] then [Num(0)] else [Open] + Interposed(any, KOr) + [Close]
    case In(item, list) => PrintOperand(item) + [KIn, Open] + PrintOperands(list) + [Close]
    case NotExists(subquery) => [KNotExists, Sub(subquery)]
    case TypeCheck(value, affinity) =>
      [Func("typeof"), Open] + PrintOperand(value) + [Close, Operator("="), Literal(AffinityName(affinity))]
  }

  /** Every constraint behind the separator. */
  function Separated(cs: seq<Constraint>, sep: Token): seq<Token>
    decreases cs, |cs|
  {
    if cs == [] then []
    else Separated(cs[..|cs| - 1], sep) + [sep] + Print(cs[|cs| - 1])
  }

  function Interposed(cs: seq<Constraint>, sep: Token): seq<Token>
    requires cs != []
    decreases cs, |cs| + 1
  {
    Print(cs[0]) + Separated(cs[1..], sep)
  }

  function PrintList(cs: seq<Constraint>, sep: Token): seq<Token> {
    if cs == [] then [] else Interposed(cs, sep)
  }

  lemma {:induction false} CommasGrow(list: seq<Operand>, i: nat, first: seq<Token>)
    requires 1 <= i < |list|
    ensures first + CommaOperands(list[1..i + 1]) ==
            first + CommaOperands(list[1..i]) + ([Comma] + PrintOperand(list[i]))
  {
    assert list[1..i + 1][..i - 1] == list[1..i];
  }

  lemma {:induction false} SeparatedGrows(cs: seq<Constraint>, i: nat, sep: Token, first: seq<Token>)
    requires 1 <= i < |cs|
    ensures first + Separated(cs[1..i + 1], sep) == first + Separated(cs[1..i], sep) + ([sep] + Print(cs[i]))
  {
    assert cs[1..i + 1][..i - 1] == cs[1..i];
  }

  function PrintWhere(cs: seq<Constraint>): seq<Token> {
    if cs == [] then [] else [KWhere] + Interposed(cs, KAnd)
  }

  class Builder {
    var out: seq<Token>

    constructor ()
      ensures out == []
    {
      out := [];
    }

    method PushOperand(o: Operand)
      modifies this
      ensures out == old(out) + PrintOperand(o)
      decreases o
    {
      match o {
        case Column(name) => out := out + [Name(name)];
        case Number(n) => out := out + [Num(n)];
        case Value(text) => out := out + [Literal(text)];
        case Unary(op, arg) =>
          out := out + [Func(op)];
          out := out + [Open];
          PushOperand(arg);
          out := out + [Close];
      }
    }

    method PushNextOperand(o: Operand)
      modifies this
      ensures out == old(out) + ([Comma] + PrintOperand(o))
    {
      out := out + [Comma];
      PushOperand(o);
    }

    method PushOperands(list: seq<Operand>)
      modifies this
      ensures out == old(out) + PrintOperands(list)
    {
      if list != [] {
        PushOperand(list[0]);
        ghost var first := out;
        var i := 1;
        while i < |list|
          invariant 1 <= i <= |list|
          invariant out == first + CommaOperands(list[1..i])
        {
          CommasGrow(list, i, first);
          PushNextOperand(list[i]);
          i := i + 1;
        }
        assert list[1..i] == list[1..];
        Associate(old(out), PrintOperand(list[0]), CommaOperands(list[1..]));
      }
    }

    method PushInfix(op: string, left: Operand, right: Operand)
      modifies this
      ensures out == old(out) + Print(Infix(op, left, right))
    {
      PushOperand(left);
      out := out + [Operator(op)];
      PushOperand(right);
    }

    method PushIn(item: Operand, list: seq<Operand>)
      modifies this
      ensures out == old(out) + Print(In(item, list))
    {
      PushOperand(item);
      out := out + [KIn, Open];
      PushOperands(list);
      out := out + [Close];
      Gather(old(out), PrintOperand(item), [KIn, Open], PrintOperands(list), [Close]);
    }

    method PushTypeCheck(value: Operand, affinity: Affinity)
      modifies this
      ensures out == old(out) + Print(TypeCheck(value, affinity))
    {
      out := out + [Func("typeof"), Open];
      PushOperand(value);
      out := out + [Close, Operator("=")];
      out := out + [Literal(AffinityName(affinity))];
      Gather(old(out), [Func("typeof"), Open], PrintOperand(value), [Close, Operator("=")],
          [Literal(AffinityName(affinity))]);
    }

    method Push(c: Constraint)
      modifies this
      ensures out == old(out) + Print(c)
      decreases c, 0
    {
      match c {
        case Infix(op, left, right) => PushInfix(op, left, right);
        case IsNull(value) =>
          PushOperand(value);
          out := out + [KIsNull];
        case IsNotNull(value) =>
          PushOperand(value);
          out := out + [KIsNotNull];
        case And(all) => PushGroup(all, KAnd, Num(1));
        case Or(any) => PushGroup(any, KOr, Num(0));
        case In(item, list) => PushIn(item, list);
        case NotExists(subquery) => out := out + [KNotExists, Sub(subquery)];
        case TypeCheck(value, affinity) => PushTypeCheck(value, affinity);
      }
    }

    method PushGroup(cs: seq<Constraint>, sep: Token, empty: Token)
      modifies this
      ensures out == old(out) + if cs == [] then [empty] else [Open] + Interposed(cs, sep) + [Close]
      decreases cs, 2
    {
      if cs == [] {
        out := out + [empty];
        return;
      }
      out := out + [Open];
      PushInterposed(cs, sep);
      out := out + [Close];
      Associate(old(out), [Open], Interposed(cs, sep));
      Associate(old(out), [Open] + Interposed(cs, sep), [Close]);
    }

    method PushNext(c: Constraint, sep: Token)
      modifies this
      ensures out == old(out) + ([sep] + Print(c))
      decreases c, 1
    {
      out := out + [sep];
      Push(c);
    }

    method PushInterposed(cs: seq<Constraint>, sep: Token)
      modifies this
      ensures out == old(out) + PrintList(cs, sep)
      decreases cs, 1
    {
      if cs != [] {
        Push(cs[0]);
        ghost var first := out;
        var i := 1;
        while i < |cs|
          invariant 1 <= i <= |cs|
          invariant out == first + Separated(cs[1..i], sep)
        {
          SeparatedGrows(cs, i, sep, first);
          PushNext(cs[i], sep);
          i := i + 1;
        }
        assert cs[1..i] == cs[1..];
        Associate(old(out), Print(cs[0]), Separated(cs[1..], sep));
      }
    }

    method PushWhere(cs: seq<Constraint>)
      modifies this
      ensures out == old(out) + PrintWhere(cs)
    {
      if cs != [] {
        out := out + [KWhere];
        PushInterposed(cs, KAnd);
      }
    }
  }

  // ---------- reading ----------

  // A condition as SQL reads it; a bare operand stands for its own truth.
  datatype Condition =
    | Bare(value: Operand)
    | Compare(op: string, left: Operand, right: Operand)
    | Missing(value: Operand)
    | Present(value: Operand)
    | Member(item: Operand, list: seq<Operand>)
    | Absent(query: string)
    | Conj(a: Condition, b: Condition)
    | Disj(a: Condition, b: Condition)

  datatype Read<+T> = Fail | Got(value: T, rest: seq<Token>)

  function ReadOperand(ts: seq<Token>): (r: Read<Operand>)
    ensures r.Got? ==> |r.rest| < |ts|
    decreases |ts|
  {
    if ts == [] then Fail
    else match ts[0]
      case Name(name) => Got(Column(name), ts[1..])
      case Num(n) => Got(Number(n), ts[1..])
      case Literal(text) => Got(Value(text), ts[1..])
      case Func(op) =>
        if |ts| < 2 || ts[1] != Open then Fail
        else (match ReadOperand(ts[2..])
              case Got(arg, rest) => if rest != [] && rest[0] == Close then Got(Unary(op, arg), rest[1..]) else Fail
              case Fail => Fail)
      case _ => Fail
  }

  /** More operands behind commas, up to the closing parenthesis. */
  function ReadMore(seen: seq<Operand>, ts: seq<Token>): (r: Read<seq<Operand>>)
    ensures r.Got? ==> |r.rest| < |ts|
    decreases |ts|
  {
    if ts == [] then Fail
    else if ts[0] == Close then Got(seen, ts[1..])
    else if ts[0] != Comma then Fail
    else match ReadOperand(ts[1..])
      case Got(o, rest) => ReadMore(seen + [o], rest)
      case Fail => Fail
  }

  function ReadList(ts: seq<Token>): (r: Read<seq<Operand>>)
    ensures r.Got? ==> |r.rest| < |ts|
  {
    if ts != [] && ts[0] == Close then Got([], ts[1..])
    else match ReadOperand(ts)
      case Got(o, rest) => ReadMore([o], rest)
      case Fail => Fail
  }

  /** What may follow an operand. */
  function ReadTail(o: Operand, ts: seq<Token>): (r: Read<Condition>)
    ensures r.Got? ==> |r.rest| <= |ts|
  {
    if ts == [] then Got(Bare(o), ts)
    else match ts[0]
      case Operator(op) =>
        (match ReadOperand(ts[1..])
         case Got(right, rest) => Got(Compare(op, o, right), rest)
         case Fail => Fail)
      case KIsNull => Got(Missing(o), ts[1..])
      case KIsNotNull => Got(Present(o), ts[1..])
      case KIn =>
        if |ts| < 2 || ts[1] != Open then Fail
        else (match ReadList(ts[2..])
              case Got(list, rest) => Got(Member(o, list), rest)
              case Fail => Fail)
      case _ => Got(Bare(o), ts)
  }

  function ReadPrimary(ts: seq<Token>): (r: Read<Condition>)
    ensures r.Got? ==> |r.rest| < |ts|
    decreases |ts|, 0
  {
    if ts == [] then Fail
    else if ts[0] == Open then
      match ReadOr(ts[1..])
      case Got(c, rest) => if rest != [] && rest[0] == Close then Got(c, rest[1..]) else Fail
      case Fail => Fail
    else if ts[0] == KNotExists then
      if |ts| >= 2 && ts[1].Sub? then Got(Absent(ts[1].query), ts[2..]) else Fail
    else
      match ReadOperand(ts)
      case Got(o, rest) => ReadTail(o, rest)
      case Fail => Fail
  }

  function ReadAnds(c: Condition, ts: seq<Token>): (r: Read<Condition>)
    ensures r.Got? ==> |r.rest| <= |ts|
    decreases |ts|, 1
  {
    if ts == [] || ts[0] != KAnd then Got(c, ts)
    else match ReadPrimary(ts[1..])
      case Got(d, rest) => ReadAnds(Conj(c, d), rest)
      case Fail => Fail
  }

  function ReadAnd(ts: seq<Token>): (r: Read<Condition>)
    ensures r.Got? ==> |r.rest| < |ts|
    decreases |ts|, 1
  {
    match ReadPrimary(ts)
    case Got(c, rest) => ReadAnds(c, rest)
    case Fail => Fail
  }

  function ReadOrs(c: Condition, ts: seq<Token>): (r: Read<Condition>)
    ensures r.Got? ==> |r.rest| <= |ts|
    decreases |ts|, 2
  {
    if ts == [] || ts[0] != KOr then Got(c, ts)
    else match ReadAnd(ts[1..])
      case Got(d, rest) => ReadOrs(Disj(c, d), rest)
      case Fail => Fail
  }

  function ReadOr(ts: seq<Token>): (r: Read<Condition>)
    ensures r.Got? ==> |r.rest| < |ts|
    decreases |ts|, 2
  {
    match ReadAnd(ts)
    case Got(c, rest) => ReadOrs(c, rest)
    case Fail => Fail
  }

  // ---------- meaning ----------

  datatype Truth = Yes | No | Unknown

  function Not(a: Truth): Truth {
    match a
    case Yes => No
    case No => Yes
    case Unknown => Unknown
  }

  function Both(a: Truth, b: Truth): Truth {
    if a == No || b == No then No else if a == Unknown || b == Unknown then Unknown else Yes
  }

  function Either(a: Truth, b: Truth): Truth {
    Not(Both(Not(a), Not(b)))
  }

  function Of(b: bool): Truth {
    if b then Yes else No
  }

  // A row and the database it lives in: numbers are themselves, the rest is up to the database.
  datatype World<!V(!new)> = World(
    number: int -> V, column: string -> V, literal: string -> V, apply: (string, V) -> V,
    compare: (string, V, V) -> Truth, isNull: V -> bool, truth: V -> Truth, exist: string -> bool,
    affinity: V -> Affinity)

  /** Comparing a value's `typeof` with the name decides whether it has the affinity. */
  ghost predicate TypeIs<V(!new)>(w: World<V>, name: string, a: Affinity) {
    forall v :: w.compare("=", w.apply("typeof", v), w.literal(name)) == Of(w.affinity(v) == a)
  }

  // One and zero are true and false, and `typeof` answers with SQLite's five names.
  ghost predicate Sensible<V(!new)>(w: World<V>) {
    && w.truth(w.number(1)) == Yes && w.truth(w.number(0)) == No
    && TypeIs(w, "null", NullAffinity) && TypeIs(w, "integer", IntegerAffinity) && TypeIs(w, "real", RealAffinity)
    && TypeIs(w, "text", TextAffinity) && TypeIs(w, "blob", BlobAffinity)
  }

  function Denote<V(!new)>(o: Operand, w: World<V>): V {
    match o
    case Column(name) => w.column(name)
    case Number(n) => w.number(n)
    case Value(text) => w.literal(text)
    case Unary(op, arg) => w.apply(op, Denote(arg, w))
  }

  function IsAmong<V(!new)>(v: V, list: seq<Operand>, w: World<V>): Truth {
    if list == [] then No
    else Either(w.compare("=", v, Denote(list[0], w)), IsAmong(v, list[1..], w))
  }

  /** What a constraint asks. */
  ghost function Meaning<V(!new)>(c: Constraint, w: World<V>): Truth
    decreases c, 0
  {
    match c
    case Infix(op, left, right) => w.compare(op, Denote(left, w), Denote(right, w))
    case And(all) => MeaningOfAll(all, w)
    case Or(any) => MeaningOfAny(any, w)
    case In(item, list) => Equals(Denote(item, w), list, w)
    case IsNull(value) => Of(w.isNull(Denote(value, w)))
    case IsNotNull(value) => Of(!w.isNull(Denote(value, w)))
    case NotExists(subquery) => Of(!w.exist(subquery))
    case TypeCheck(value, affinity) => Of(w.affinity(Denote(value, w)) == affinity)
  }

  /** One that is false decides a conjunction, else one that is unknown does. */
  ghost function MeaningOfAll<V(!new)>(cs: seq<Constraint>, w: World<V>): Truth
    decreases cs, |cs|
  {
    if exists i :: 0 <= i < |cs| && Meaning(cs[i], w) == No then No
    else if exists i :: 0 <= i < |cs| && Meaning(cs[i], w) == Unknown then Unknown
    else Yes
  }

  /** One that is true decides an alternation, else one that is unknown does. */
  ghost function MeaningOfAny<V(!new)>(cs: seq<Constraint>, w: World<V>): Truth
    decreases cs, |cs|
  {
    if exists i :: 0 <= i < |cs| && Meaning(cs[i], w) == Yes then Yes
    else if exists i :: 0 <= i < |cs| && Meaning(cs[i], w) == Unknown then Unknown
    else No
  }

  /** The value equals some member of the list. */
  ghost function Equals<V(!new)>(v: V, list: seq<Operand>, w: World<V>): Truth {
    if exists i :: 0 <= i < |list| && w.compare("=", v, Denote(list[i], w)) == Yes then Yes
    else if exists i :: 0 <= i < |list| && w.compare("=", v, Denote(list[i], w)) == Unknown then Unknown
    else No
  }

  /** What SQL decides for a condition. */
  function Decide<V(!new)>(c: Condition, w: World<V>): Truth {
    match c
    case Bare(value) => w.truth(Denote(value, w))
    case Compare(op, left, right) => w.compare(op, Denote(left, w), Denote(right, w))
    case Missing(value) => Of(w.isNull(Denote(value, w)))
    case Present(value) => Not(Of(w.isNull(Denote(value, w))))
    case Member(item, list) => IsAmong(Denote(item, w), list, w)
    case Absent(query) => Not(Of(w.exist(query)))
    case Conj(a, b) => Both(Decide(a, w), Decide(b, w))
    case Disj(a, b) => Either(Decide(a, w), Decide(b, w))
  }

  // ---------- the condition a constraint is read back as ----------

  ghost function Tree(c: Constraint): Condition
    decreases c, 0
  {
    match c
    case Infix(op, left, right) => Compare(op, left, right)
    case And(all) => if all == [] then Bare(Number(1)) else Joined(all, true)
    case Or(any) => if any == [] then Bare(Number(0)) else Joined(any, false)
    case In(item, list) => Member(item, list)
    case IsNull(value) => Missing(value)
    case IsNotNull(value) => Present(value)
    case NotExists(subquery) => Absent(subquery)
    case TypeCheck(value, affinity) => Compare("=", Unary("typeof", value), Value(AffinityName(affinity)))
  }

  /** Constraints joined from the left. */
  ghost function Joined(cs: seq<Constraint>, and: bool): Condition
    requires cs != []
    decreases cs, |cs|
  {
    var last := Tree(cs[|cs| - 1]);
    if |cs| == 1 then last
    else if and then Conj(Joined(cs[..|cs| - 1], and), last)
    else Disj(Joined(cs[..|cs| - 1], and), last)
  }

  lemma {:induction false} AmongEquals<V(!new)>(v: V, list: seq<Operand>, w: World<V>)
    ensures IsAmong(v, list, w) == Equals(v, list, w)
  {
    if list != [] {
      var rest := list[1..];
      AmongEquals(v, rest, w);
      assert forall i | 0 <= i < |rest| :: rest[i] == list[i + 1];
      assert forall i | 0 < i < |list| :: list[i] == rest[i - 1];
    }
  }

  lemma {:induction false} LastOfAll<V(!new)>(cs: seq<Constraint>, w: World<V>)
    requires cs != []
    ensures var n := |cs| - 1; MeaningOfAll(cs, w) == Both(MeaningOfAll(cs[..n], w), Meaning(cs[n], w))
  {
    var n := |cs| - 1;
    assert forall i | 0 <= i < n :: cs[..n][i] == cs[i];
  }

  lemma {:induction false} LastOfAny<V(!new)>(cs: seq<Constraint>, w: World<V>)
    requires cs != []
    ensures var n := |cs| - 1; MeaningOfAny(cs, w) == Either(MeaningOfAny(cs[..n], w), Meaning(cs[n], w))
  {
    var n := |cs| - 1;
    assert forall i | 0 <= i < n :: cs[..n][i] == cs[i];
  }

  lemma {:induction false} NoneMeans<V(!new)>(w: World<V>)
    ensures MeaningOfAll([], w) == Yes && MeaningOfAny([], w) == No
  {
  }

  lemma {:induction false} TypeName<V(!new)>(a: Affinity, w: World<V>, v: V)
    requires Sensible(w)
    ensures w.compare("=", w.apply("typeof", v), w.literal(AffinityName(a))) == Of(w.affinity(v) == a)
  {
  }

  lemma {:induction false} TreeMeaning<V(!new)>(c: Constraint, w: World<V>)
    requires Sensible(w)
    ensures Decide(Tree(c), w) == Meaning(c, w)
    decreases c, 0
  {
    match c {
      case And(all) =>
        if all != [] {
          JoinedMeaning(all, true, w);
        }
      case Or(any) =>
        if any != [] {
          JoinedMeaning(any, false, w);
        }
      case In(item, list) => AmongEquals(Denote(item, w), list, w);
      case TypeCheck(value, affinity) => TypeName(affinity, w, Denote(value, w));
      case _ =>
    }
  }

  lemma {:induction false} JoinedMeaning<V(!new)>(cs: seq<Constraint>, and: bool, w: World<V>)
    requires Sensible(w) && cs != []
    ensures Decide(Joined(cs, and), w) == if and then MeaningOfAll(cs, w) else MeaningOfAny(cs, w)
    decreases cs, |cs|
  {
    var n := |cs| - 1;
    TreeMeaning(cs[n], w);
    if and {
      LastOfAll(cs, w);
    } else {
      LastOfAny(cs, w);
    }
    if n > 0 {
      JoinedMeaning(cs[..n], and, w);
    } else {
      assert cs[..n] == [];
      NoneMeans(w);
    }
  }

  // ---------- reading what was printed ----------

  /** Nothing here extends an operand. */
  predicate Stops(ts: seq<Token>) {
    ts == [] || ts[0] == KAnd || ts[0] == KOr || ts[0] == Close || ts[0] == KEnd
  }

  /** Nothing here extends a condition. */
  predicate Ends(ts: seq<Token>) {
    ts == [] || ts[0] == Close || ts[0] == KEnd
  }

  lemma {:induction false} OperandReads(o: Operand, rest: seq<Token>)
    ensures ReadOperand(PrintOperand(o) + rest) == Got(o, rest)
    decreases o
  {
    var ts := PrintOperand(o) + rest;
    match o {
      case Unary(op, arg) =>
        assert ts[2..] == PrintOperand(arg) + ([Close] + rest);
        OperandReads(arg, [Close] + rest);
        assert ([Close] + rest)[1..] == rest;
      case _ => assert ts[1..] == rest;
    }
  }

  lemma {:induction false} CommaSplits(list: seq<Operand>)
    requires list != []
    ensures CommaOperands(list) == [Comma] + PrintOperand(list[0]) + CommaOperands(list[1..])
    decreases |list|
  {
    var n := |list| - 1;
    if n > 0 {
      CommaSplits(list[..n]);
      assert list[..n][1..] == list[1..][..n - 1];
    }
  }

  lemma {:induction false} MoreStep(seen: seq<Operand>, o: Operand, more: seq<Token>)
    ensures ReadMore(seen, [Comma] + PrintOperand(o) + more) == ReadMore(seen + [o], more)
  {
    assert ([Comma] + PrintOperand(o) + more)[1..] == PrintOperand(o) + more;
    OperandReads(o, more);
  }

  lemma {:induction false} MoreReads(seen: seq<Operand>, list: seq<Operand>, rest: seq<Token>)
    ensures ReadMore(seen, CommaOperands(list) + [Close] + rest) == Got(seen + list, rest)
    decreases |list|
  {
    var ts := CommaOperands(list) + [Close] + rest;
    if list == [] {
      assert ts[1..] == rest;
      assert seen + list == seen;
    } else {
      var more := CommaOperands(list[1..]) + [Close] + rest;
      assert ts == [Comma] + PrintOperand(list[0]) + more by { CommaSplits(list); }
      MoreStep(seen, list[0], more);
      MoreReads(seen + [list[0]], list[1..], rest);
      assert seen + [list[0]] + list[1..] == seen + list;
    }
  }

  lemma {:induction false} ListReads(list: seq<Operand>, rest: seq<Token>)
    ensures ReadList(PrintOperands(list) + [Close] + rest) == Got(list, rest)
  {
    var ts := PrintOperands(list) + [Close] + rest;
    if list == [] {
      assert ts[1..] == rest;
    } else {
      var more := CommaOperands(list[1..]) + [Close] + rest;
      assert ts == PrintOperand(list[0]) + more;
      OperandReads(list[0], more);
      assert ts[0] != Close;
      MoreReads([list[0]], list[1..], rest);
      assert [list[0]] + list[1..] == list;
    }
  }

  /** An atom starts with its operand and is read through its tail. */
  lemma {:induction false} OperandFirst(o: Operand, tail: seq<Token>)
    ensures ReadPrimary(PrintOperand(o) + tail) == ReadTail(o, tail)
  {
    OperandReads(o, tail);
  }

  lemma {:induction false} InfixTail(op: string, left: Operand, right: Operand, rest: seq<Token>)
    ensures ReadTail(left, [Operator(op)] + (PrintOperand(right) + rest)) == Got(Compare(op, left, right), rest)
  {
    var tail := [Operator(op)] + (PrintOperand(right) + rest);
    assert tail[1..] == PrintOperand(right) + rest;
    OperandReads(right, rest);
  }

  lemma {:induction false} InfixReads(op: string, left: Operand, right: Operand, rest: seq<Token>)
    ensures ReadPrimary(PrintOperand(left) + [Operator(op)] + PrintOperand(right) + rest) ==
            Got(Compare(op, left, right), rest)
  {
    Regroup(PrintOperand(left), [Operator(op)], [], PrintOperand(right), rest);
    assert PrintOperand(left) + [Operator(op)] + [] == PrintOperand(left) + [Operator(op)];
    assert [] + PrintOperand(right) == PrintOperand(right);
    OperandFirst(left, [Operator(op)] + (PrintOperand(right) + rest));
    InfixTail(op, left, right, rest);
  }

  lemma {:induction false} InTail(o: Operand, list: seq<Operand>, rest: seq<Token>)
    ensures ReadTail(o, [KIn, Open] + (PrintOperands(list) + [Close] + rest)) == Got(Member(o, list), rest)
  {
    var tail := [KIn, Open] + (PrintOperands(list) + [Close] + rest);
    assert tail[2..] == PrintOperands(list) + [Close] + rest;
    ListReads(list, rest);
  }

  lemma {:induction false} InReads(item: Operand, list: seq<Operand>, rest: seq<Token>)
    ensures ReadPrimary(Print(In(item, list)) + rest) == Got(Member(item, list), rest)
  {
    var tail := [KIn, Open] + (PrintOperands(list) + [Close] + rest);
    Regroup(PrintOperand(item), [KIn, Open], PrintOperands(list), [Close], rest);
    OperandFirst(item, tail);
    InTail(item, list, rest);
  }

  lemma {:induction false} NullTail(o: Operand, rest: seq<Token>)
    ensures ReadTail(o, [KIsNull] + rest) == Got(Missing(o), rest)
    ensures ReadTail(o, [KIsNotNull] + rest) == Got(Present(o), rest)
  {
  }

  lemma {:induction false} NullReads(value: Operand, rest: seq<Token>)
    ensures ReadPrimary(Print(IsNull(value)) + rest) == Got(Missing(value), rest)
  {
    Associate(PrintOperand(value), [KIsNull], rest);
    OperandFirst(value, [KIsNull] + rest);
    NullTail(value, rest);
  }

  lemma {:induction false} NotNullReads(value: Operand, rest: seq<Token>)
    ensures ReadPrimary(Print(IsNotNull(value)) + rest) == Got(Present(value), rest)
  {
    Associate(PrintOperand(value), [KIsNotNull], rest);
    OperandFirst(value, [KIsNotNull] + rest);
    NullTail(value, rest);
  }

  lemma {:induction false} NumberReads(n: int, rest: seq<Token>)
    requires Stops(rest)
    ensures ReadPrimary([Num(n)] + rest) == Got(Bare(Number(n)), rest)
  {
  }

  lemma {:induction false} TypeCheckReads(value: Operand, affinity: Affinity, rest: seq<Token>)
    ensures ReadPrimary(Print(TypeCheck(value, affinity)) + rest) == Got(Tree(TypeCheck(value, affinity)), rest)
  {
    var left, right := Unary("typeof", value), Value(AffinityName(affinity));
    assert Print(TypeCheck(value, affinity)) == PrintOperand(left) + [Operator("=")] + PrintOperand(right);
    InfixReads("=", left, right, rest);
  }

  /** A printed constraint is read back as its tree, leaving what follows. */
  lemma {:induction false} PrimaryReads(c: Constraint, rest: seq<Token>)
    requires Stops(rest)
    ensures ReadPrimary(Print(c) + rest) == Got(Tree(c), rest)
    decreases c, 0
  {
    match c {
      case Infix(op, left, right) => InfixReads(op, left, right, rest);
      case IsNull(value) => NullReads(value, rest);
      case IsNotNull(value) => NotNullReads(value, rest);
      case In(item, list) => InReads(item, list, rest);
      case NotExists(subquery) => assert (Print(c) + rest)[2..] == rest;
      case TypeCheck(value, affinity) => TypeCheckReads(value, affinity, rest);
      case And(all) =>
        if all == [] {
          NumberReads(1, rest);
        } else {
          JoinedReads(all, true, [Close] + rest);
          GroupReads(all, KAnd, Joined(all, true), rest);
        }
      case Or(any) =>
        if any == [] {
          NumberReads(0, rest);
        } else {
          JoinedReads(any, false, [Close] + rest);
          GroupReads(any, KOr, Joined(any, false), rest);
        }
    }
  }

  lemma {:induction false} GroupReads(cs: seq<Constraint>, sep: Token, tree: Condition, rest: seq<Token>)
    requires cs != [] && ReadOr(Interposed(cs, sep) + ([Close] + rest)) == Got(tree, [Close] + rest)
    ensures ReadPrimary([Open] + Interposed(cs, sep) + [Close] + rest) == Got(tree, rest)
  {
    var ts := [Open] + Interposed(cs, sep) + [Close] + rest;
    assert ts[1..] == Interposed(cs, sep) + ([Close] + rest);
    assert ([Close] + rest)[1..] == rest;
  }

  /** A chain of one connective is read from the left, to its end. */
  lemma {:induction false} JoinedReads(cs: seq<Constraint>, and: bool, rest: seq<Token>)
    requires cs != [] && Ends(rest)
    ensures ReadOr(Interposed(cs, if and then KAnd else KOr) + rest) == Got(Joined(cs, and), rest)
    decreases cs, |cs| + 2
  {
    var sep := if and then KAnd else KOr;
    var tail := Separated(cs[1..], sep) + rest;
    assert Interposed(cs, sep) + rest == Print(cs[0]) + tail;
    SeparatedStops(cs[1..], sep, rest);
    PrimaryReads(cs[0], tail);
    JoinedOne(cs, and);
    if and {
      AndsRead(cs, 1, rest);
      AndChain(Print(cs[0]) + tail, Tree(cs[0]), tail, Joined(cs, and), rest);
    } else {
      OrsRead(cs, 1, rest);
      OrChain(Print(cs[0]) + tail, Tree(cs[0]), tail, cs[1..], rest);
    }
  }

  lemma {:induction false} JoinedOne(cs: seq<Constraint>, and: bool)
    requires cs != []
    ensures Joined(cs[..1], and) == Tree(cs[0])
  {
  }

  lemma {:induction false} JoinedGrows(cs: seq<Constraint>, i: nat, and: bool)
    requires 1 <= i < |cs|
    ensures Joined(cs[..i + 1], and) ==
            if and then Conj(Joined(cs[..i], and), Tree(cs[i])) else Disj(Joined(cs[..i], and), Tree(cs[i]))
  {
    assert cs[..i + 1][..i] == cs[..i];
  }

  lemma {:induction false} AndChain(ts: seq<Token>, c: Condition, tail: seq<Token>, all: Condition, rest: seq<Token>)
    requires ReadPrimary(ts) == Got(c, tail) && ReadAnds(c, tail) == Got(all, rest) && Ends(rest)
    ensures ReadOr(ts) == Got(all, rest)
  {
  }

  lemma {:induction false} AloneRead(ts: seq<Token>, c: Condition, tail: seq<Token>)
    requires ReadPrimary(ts) == Got(c, tail) && (tail == [] || tail[0] != KAnd)
    ensures ReadAnd(ts) == Got(c, tail)
  {
  }

  lemma {:induction false} OrChain(ts: seq<Token>, c: Condition, tail: seq<Token>, cs: seq<Constraint>,
      rest: seq<Token>)
    requires ReadPrimary(ts) == Got(c, tail) && tail == Separated(cs, KOr) + rest && Ends(rest)
    ensures ReadOr(ts) == ReadOrs(c, tail)
  {
    SeparatedStops(cs, KOr, rest);
    AloneRead(ts, c, tail);
  }

  lemma {:induction false} AndStep(c: Condition, d: Condition, ts: seq<Token>, more: seq<Token>)
    requires ReadPrimary(ts) == Got(d, more)
    ensures ReadAnds(c, [KAnd] + ts) == ReadAnds(Conj(c, d), more)
  {
  }

  lemma {:induction false} OrStep(c: Condition, d: Condition, ts: seq<Token>, more: seq<Token>)
    requires ReadAnd(ts) == Got(d, more)
    ensures ReadOrs(c, [KOr] + ts) == ReadOrs(Disj(c, d), more)
  {
  }

  lemma {:induction false} SeparatedSplits(cs: seq<Constraint>, sep: Token)
    requires cs != []
    ensures Separated(cs, sep) == [sep] + Print(cs[0]) + Separated(cs[1..], sep)
    decreases |cs|
  {
    var n := |cs| - 1;
    if n > 0 {
      SeparatedSplits(cs[..n], sep);
      assert cs[..n][1..] == cs[1..][..n - 1];
    }
  }

  lemma {:induction false} SeparatedStops(cs: seq<Constraint>, sep: Token, rest: seq<Token>)
    requires Ends(rest)
    ensures cs == [] ==> Separated(cs, sep) + rest == rest
    ensures cs != [] ==> (Separated(cs, sep) + rest)[0] == sep
    ensures sep == KAnd || sep == KOr ==> Stops(Separated(cs, sep) + rest)
  {
    if cs != [] {
      SeparatedSplits(cs, sep);
    }
  }

  /** What follows the first i constraints of a chain. */
  lemma {:induction false} ChainSplits(cs: seq<Constraint>, i: nat, sep: Token, rest: seq<Token>)
    requires i < |cs|
    ensures Separated(cs[i..], sep) + rest == [sep] + (Print(cs[i]) + (Separated(cs[i + 1..], sep) + rest))
  {
    SeparatedSplits(cs[i..], sep);
    assert cs[i..][1..] == cs[i + 1..];
  }

  /** From the i-th constraint on, the chain is read to its end. */
  ghost predicate AndsComplete(cs: seq<Constraint>, i: nat, rest: seq<Token>)
    requires 1 <= i <= |cs|
  {
    ReadAnds(Joined(cs[..i], true), Separated(cs[i..], KAnd) + rest) == Got(Joined(cs, true), rest)
  }

  /** Reading on past the i-th constraint of the chain. */
  lemma {:induction false} AndsAdvance(cs: seq<Constraint>, i: nat, rest: seq<Token>)
    requires 1 <= i < |cs| && Ends(rest) && AndsComplete(cs, i + 1, rest)
    ensures AndsComplete(cs, i, rest)
    decreases cs, 0
  {
    var more := Separated(cs[i + 1..], KAnd) + rest;
    SeparatedStops(cs[i + 1..], KAnd, rest);
    PrimaryReads(cs[i], more);
    ChainSplits(cs, i, KAnd, rest);
    AndStep(Joined(cs[..i], true), Tree(cs[i]), Print(cs[i]) + more, more);
    JoinedGrows(cs, i, true);
  }

  lemma {:induction false} AndsDone(cs: seq<Constraint>, rest: seq<Token>)
    requires cs != [] && Ends(rest)
    ensures AndsComplete(cs, |cs|, rest)
  {
    assert cs[..|cs|] == cs && cs[|cs|..] == [];
    SeparatedStops([], KAnd, rest);
  }

  lemma {:induction false} AndsRead(cs: seq<Constraint>, i: nat, rest: seq<Token>)
    requires 1 <= i <= |cs| && Ends(rest)
    ensures AndsComplete(cs, i, rest)
    decreases cs, |cs| - i + 1
  {
    if i == |cs| {
      AndsDone(cs, rest);
    } else {
      AndsRead(cs, i + 1, rest);
      AndsAdvance(cs, i, rest);
    }
  }

  /** From the i-th constraint on, the chain is read to its end. */
  ghost predicate OrsComplete(cs: seq<Constraint>, i: nat, rest: seq<Token>)
    requires 1 <= i <= |cs|
  {
    ReadOrs(Joined(cs[..i], false), Separated(cs[i..], KOr) + rest) == Got(Joined(cs, false), rest)
  }

  /** Reading on past the i-th constraint of the chain. */
  lemma {:induction false} OrsAdvance(cs: seq<Constraint>, i: nat, rest: seq<Token>)
    requires 1 <= i < |cs| && Ends(rest) && OrsComplete(cs, i + 1, rest)
    ensures OrsComplete(cs, i, rest)
    decreases cs, 0
  {
    var more := Separated(cs[i + 1..], KOr) + rest;
    SeparatedStops(cs[i + 1..], KOr, rest);
    PrimaryReads(cs[i], more);
    AloneRead(Print(cs[i]) + more, Tree(cs[i]), more);
    ChainSplits(cs, i, KOr, rest);
    OrStep(Joined(cs[..i], false), Tree(cs[i]), Print(cs[i]) + more, more);
    JoinedGrows(cs, i, false);
  }

  lemma {:induction false} OrsDone(cs: seq<Constraint>, rest: seq<Token>)
    requires cs != [] && Ends(rest)
    ensures OrsComplete(cs, |cs|, rest)
  {
    assert cs[..|cs|] == cs && cs[|cs|..] == [];
    SeparatedStops([], KOr, rest);
  }

  lemma {:induction false} OrsRead(cs: seq<Constraint>, i: nat, rest: seq<Token>)
    requires 1 <= i <= |cs| && Ends(rest)
    ensures OrsComplete(cs, i, rest)
    decreases cs, |cs| - i + 1
  {
    if i == |cs| {
      OrsDone(cs, rest);
    } else {
      OrsRead(cs, i + 1, rest);
      OrsAdvance(cs, i, rest);
    }
  }

  /** The filter a query's tokens impose: none without the keyword. */
  function ReadWhere(ts: seq<Token>): Read<Option<Condition>> {
    if ts == [] || ts[0] != KWhere then Got(None, ts)
    else match ReadOr(ts[1..])
      case Got(c, rest) => Got(Some(c), rest)
      case Fail => Fail
  }

  function Filter<V(!new)>(c: Option<Condition>, w: World<V>): Truth {
    match c
    case None => Yes
    case Some(c) => Decide(c, w)
  }

  lemma {:induction false} WhereReads(cs: seq<Constraint>, rest: seq<Token>)
    requires cs != [] && Ends(rest)
    ensures ReadWhere(PrintWhere(cs) + rest) == Got(Some(Joined(cs, true)), rest)
  {
    var ts := Interposed(cs, KAnd) + rest;
    assert PrintWhere(cs) + rest == [KWhere] + ts;
    assert ([KWhere] + ts)[1..] == ts;
    JoinedReads(cs, true, rest);
  }

  /** The printed clause is read back whole, and decides what the conjunction of the constraints means. */
  lemma {:induction false} WherePreservesMeaning<V(!new)>(cs: seq<Constraint>, rest: seq<Token>, w: World<V>)
    requires Sensible(w) && Ends(rest)
    ensures var r := ReadWhere(PrintWhere(cs) + rest);
            r.Got? && r.rest == rest && Filter(r.value, w) == MeaningOfAll(cs, w)
  {
    if cs == [] {
      assert PrintWhere(cs) + rest == rest;
    } else {
      WhereReads(cs, rest);
      JoinedMeaning(cs, true, w);
    }
  }
}
