/** Routing: from the parsed statement to the one Burrow that holds every row it can touch. */
module Router {
  import opened Text
  import opened Scalar

  // ---------------------------------------------------------------------------------- syntax

  datatype Constant = StringConst(s: string) | IntConst(n: int) | FloatConst(digits: string) | BoolConst(b: bool) | NullConst

  /** Column holds the dotted parts of a reference.  A cast to an array type has no type name, and Other
      stands for every expression the router does not look into. */
  datatype Expr =
    | Column(parts: seq<string>)
    | Const(c: Constant)
    | Param(number: int)
    | Cast(arg: Expr, typeName: Option<string>, modifiers: seq<int>)
    | Collate(arg: Expr, collation: string)
    | Signed(minus: bool, arg: Expr)
    | RowOf(items: seq<Expr>)
    | Other(id: int)

  datatype Preds = Nil | Cons(head: Pred, tail: Preds)

  /** A WHERE clause.  Condition stands for any other test. */
  datatype Pred = And(args: Preds) | Or(args: Preds) | Not(arg: Pred) | Equals(left: Expr, right: Expr) | Condition(id: int)

  datatype Relation = Relation(schema: string, name: string, alias: Option<string>)

  // ------------------------------------------------------------------------ column references

  predicate ValidQualifier(parts: seq<string>, relation: Relation) {
    if relation.alias.Some? && |parts| == 1 then parts[0] == relation.alias.value
    else if |parts| == 1 then parts[0] == relation.name
    else |parts| == 2 && parts[0] == relation.schema && parts[1] == relation.name
  }

  function ColumnName(e: Expr, relation: Relation): Option<string> {
    if !e.Column? || |e.parts| == 0 || |e.parts| > 3 then None
    else if |e.parts| > 1 && !ValidQualifier(e.parts[..|e.parts| - 1], relation) then None
    else Some(e.parts[|e.parts| - 1])
  }

  // ------------------------------------------------------------------------------- constants

  function ConstText(c: Constant): Option<string> {
    match c
    case StringConst(s) => Some(s)
    case IntConst(n) => Some(FormatInt(n))
    case FloatConst(digits) => Some(digits)
    case BoolConst(b) => Some(FormatBool(b))
    case NullConst => None
  }

  function ParamText(number: int, parameters: seq<Option<string>>): Option<string> {
    if 1 <= number <= |parameters| then parameters[number - 1] else None
  }

  /** The text of a constant operand and the type of an outermost cast. */
  datatype Raw = Raw(text: string, cast: Option<Family>)

  function RawText(text: Option<string>): Option<Raw> {
    match text case None => None case Some(s) => Some(Raw(s, None))
  }

  function CastRaw(raw: Option<Raw>, typeName: Option<string>): Option<Raw> {
    if raw.None? || typeName.None? then
      None
    else
      match CanonicalScalar(raw.value.text, FamilyOf(typeName.value))
      case None => None
      case Some(text) => Some(Raw(text, Some(FamilyOf(typeName.value))))
  }

  function SignText(minus: bool): string {
    if minus then "-" else "+"
  }

  /** rawScalarValue. */
  function RawValue(e: Expr, parameters: seq<Option<string>>): Option<Raw> {
    match e
    case Const(c) => RawText(ConstText(c))
    case Param(number) => RawText(ParamText(number, parameters))
    case Cast(arg, typeName, _) => CastRaw(RawValue(arg, parameters), typeName)
    case Collate(arg, _) => RawValue(arg, parameters)
    case Signed(minus, arg) =>
      (match RawValue(arg, parameters)
       case None => None
       case Some(raw) => Some(raw.(text := SignText(minus) + raw.text)))
    case _ => None
  }

  /** scalarValue. */
  function ScalarValue(e: Expr, parameters: seq<Option<string>>, family: Family): Option<string> {
    match RawValue(e, parameters)
    case None => None
    case Some(raw) => CanonicalScalar(raw.text, if raw.cast.Some? then raw.cast.value else family)
  }

  // --------------------------------------------------------------------- collected equalities

  type Equalities = map<string, Expr>

  function Add(values: Equalities, column: string, value: Expr): Option<Equalities> {
    if column in values then None else Some(values[column := value])
  }

  function CollectOne(left: Expr, right: Expr, relation: Relation, values: Equalities): Option<Equalities> {
    match ColumnName(left, relation)
    case Some(column) => Add(values, column, right)
    case None =>
      match ColumnName(right, relation)
      case Some(column) => Add(values, column, left)
      case None => Some(values)
  }

  function Items(e: Expr): seq<Expr> {
    if e.RowOf? then e.items else []
  }

  /** The pairs of a row comparison up to n. */
  function CollectPairs(
      left: seq<Expr>, right: seq<Expr>, n: nat, relation: Relation, values: Equalities): Option<Equalities>
    requires n <= |left| == |right|
  {
    if n == 0 then Some(values) else
      match CollectPairs(left, right, n - 1, relation, values)
      case None => None
      case Some(sofar) => CollectOne(left[n - 1], right[n - 1], relation, sofar)
  }

  function CollectEquals(left: Expr, right: Expr, relation: Relation, values: Equalities): Option<Equalities> {
    var l, r := Items(left), Items(right);
    if l == [] && r == [] then CollectOne(left, right, relation, values)
    else if l == [] || |l| != |r| then None
    else CollectPairs(l, r, |l|, relation, values)
  }

  function Collect(p: Pred, relation: Relation, values: Equalities): Option<Equalities> {
    match p
    case And(args) => CollectAll(args, relation, values)
    case Or(_) => None
    case Not(_) => None
    case Equals(left, right) => CollectEquals(left, right, relation, values)
    case Condition(_) => Some(values)
  }

  function CollectAll(ps: Preds, relation: Relation, values: Equalities): Option<Equalities> {
    match ps
    case Nil => Some(values)
    case Cons(p, rest) =>
      match Collect(p, relation, values)
      case None => None
      case Some(sofar) => CollectAll(rest, relation, sofar)
  }

  /** collectEqualities, filling one map as it walks the tree. */
  method CollectEqualities(p: Pred, relation: Relation, values: Equalities) returns (r: Option<Equalities>)
    ensures r == Collect(p, relation, values)
  {
    match p {
      case And(args) =>
        var sofar, rest := values, args;
        while rest.Cons?
          invariant CollectAll(rest, relation, sofar) == CollectAll(args, relation, values)
          invariant rest == args || rest < args
          decreases rest
        {
          var next := CollectEqualities(rest.head, relation, sofar);
          if next.None? {
            return None;
          }
          sofar, rest := next.value, rest.tail;
        }
        return Some(sofar);
      case Or(_) => return None;
      case Not(_) => return None;
      case Condition(_) => return Some(values);
      case Equals(left, right) =>
        r := CollectEquality(left, right, relation, values);
    }
  }

  method CollectEquality(
      left: Expr, right: Expr, relation: Relation, values: Equalities) returns (r: Option<Equalities>)
    ensures r == CollectEquals(left, right, relation, values)
  {
    var l, r' := Items(left), Items(right);
    if l == [] && r' == [] {
      return CollectOne(left, right, relation, values);
    }
    if l == [] || |l| != |r'| {
      return None;
    }
    var sofar, n := values, 0;
    while n < |l|
      invariant n <= |l| && CollectPairs(l, r', n, relation, values) == Some(sofar)
    {
      var next := CollectOne(l[n], r'[n], relation, sofar);
      if next.None? {
        PairsStop(l, r', n + 1, relation, values);
        return None;
      }
      sofar, n := next.value, n + 1;
    }
    return Some(sofar);
  }

  lemma {:induction false} PairsStop(
      left: seq<Expr>, right: seq<Expr>, n: nat, relation: Relation, values: Equalities)
    requires n <= |left| == |right| && CollectPairs(left, right, n, relation, values).None?
    ensures CollectPairs(left, right, |left|, relation, values).None?
    decreases |left| - n
  {
    if n < |left| {
      PairsStop(left, right, n + 1, relation, values);
    }
  }

  // -------------------------------------------------------------------- when collecting succeeds

  /** The conditions a predicate is the conjunction of. */
  function Conjuncts(p: Pred): seq<Pred> {
    if p.And? then ConjunctsOf(p.args) else [p]
  }

  function ConjunctsOf(ps: Preds): seq<Pred> {
    match ps case Nil => [] case Cons(p, rest) => Conjuncts(p) + ConjunctsOf(rest)
  }

  /** No OR and no NOT, and a row is compared with a row as long. */
  predicate Simple(p: Pred) {
    match p
    case Equals(left, right) => |Items(left)| == |Items(right)|
    case Condition(_) => true
    case _ => false
  }

  /** The columns a comparison of two operands binds, with what they are compared with. */
  function Binding(left: Expr, right: Expr, relation: Relation): seq<(string, Expr)> {
    var l, r := ColumnName(left, relation), ColumnName(right, relation);
    if l.Some? then [(l.value, right)] else if r.Some? then [(r.value, left)] else []
  }

  function PairBindings(left: seq<Expr>, right: seq<Expr>, relation: Relation): seq<(string, Expr)>
    requires |left| == |right|
  {
    if left == [] then [] else
      var last := |left| - 1;
      PairBindings(left[..last], right[..last], relation) + Binding(left[last], right[last], relation)
  }

  /** The columns all the equalities of a conjunction bind. */
  function Bindings(ps: seq<Pred>, relation: Relation): seq<(string, Expr)>
    requires AllSimple(ps)
  {
    if ps == [] then [] else
      var p := ps[0];
      assert Simple(p);
      (if !p.Equals? then []
       else if Items(p.left) == [] then Binding(p.left, p.right, relation)
       else PairBindings(Items(p.left), Items(p.right), relation))
      + Bindings(ps[1..], relation)
  }

  predicate AllSimple(ps: seq<Pred>) {
    forall i :: 0 <= i < |ps| ==> Simple(ps[i])
  }

  /** No column is bound twice, or bound already. */
  predicate Once(bound: seq<(string, Expr)>, values: Equalities) {
    && (forall i :: 0 <= i < |bound| ==> bound[i].0 !in values)
    && (forall i, j :: 0 <= i < j < |bound| ==> bound[i].0 != bound[j].0)
  }

  /** The map grown by these bindings and nothing else. */
  predicate Grown(bound: seq<(string, Expr)>, values: Equalities, all: Equalities) {
    && (forall c <- values :: c in all && all[c] == values[c])
    && (forall i :: 0 <= i < |bound| ==> bound[i].0 in all && all[bound[i].0] == bound[i].1)
    && (forall c <- all :: c in values || exists i :: 0 <= i < |bound| && bound[i].0 == c)
  }

  /** What collecting a list of bindings comes to. */
  predicate Adds(bound: seq<(string, Expr)>, values: Equalities, r: Option<Equalities>) {
    && (r.Some? <==> Once(bound, values))
    && (r.Some? ==> Grown(bound, values, r.value))
  }

  lemma AddsTwice(
      a: seq<(string, Expr)>, b: seq<(string, Expr)>, values: Equalities, middle: Option<Equalities>, r: Option<Equalities>)
    requires Adds(a, values, middle)
    requires if middle.Some? then Adds(b, middle.value, r) else r.None?
    ensures Adds(a + b, values, r)
  {
    var both := a + b;
    assert forall i :: 0 <= i < |a| ==> both[i] == a[i];
    assert forall i :: 0 <= i < |b| ==> both[|a| + i] == b[i];
  }

  lemma OneAdds(left: Expr, right: Expr, relation: Relation, values: Equalities)
    ensures Adds(Binding(left, right, relation), values, CollectOne(left, right, relation, values))
  {
    var bound := Binding(left, right, relation);
    if bound != [] {
      assert bound[0].0 in values[bound[0].0 := bound[0].1];
    }
  }

  lemma {:induction false} PairsAdd(left: seq<Expr>, right: seq<Expr>, n: nat, relation: Relation, values: Equalities)
    requires n <= |left| == |right|
    ensures Adds(PairBindings(left[..n], right[..n], relation), values, CollectPairs(left, right, n, relation, values))
  {
    if n > 0 {
      assert left[..n][..n - 1] == left[..n - 1] && right[..n][..n - 1] == right[..n - 1];
      PairsAdd(left, right, n - 1, relation, values);
      var sofar := CollectPairs(left, right, n - 1, relation, values);
      if sofar.Some? {
        OneAdds(left[n - 1], right[n - 1], relation, sofar.value);
      }
      AddsTwice(PairBindings(left[..n - 1], right[..n - 1], relation), Binding(left[n - 1], right[n - 1], relation), values,
                sofar, CollectPairs(left, right, n, relation, values));
    }
  }

  lemma {:induction false} BindingsJoin(a: seq<Pred>, b: seq<Pred>, relation: Relation)
    requires AllSimple(a) && AllSimple(b)
    ensures AllSimple(a + b) && Bindings(a + b, relation) == Bindings(a, relation) + Bindings(b, relation)
  {
    if a == [] {
      assert a + b == b;
    } else {
      assert (a + b)[1..] == a[1..] + b;
      BindingsJoin(a[1..], b, relation);
    }
  }

  /** Collecting succeeds exactly when the predicate is a conjunction of conditions and equalities, rows only
      against rows as long, that binds no column twice; the map then holds exactly its bindings. */
  lemma {:induction false} CollectExact(p: Pred, relation: Relation, values: Equalities)
    ensures Collect(p, relation, values).Some? ==> AllSimple(Conjuncts(p))
    ensures AllSimple(Conjuncts(p)) ==> Adds(Bindings(Conjuncts(p), relation), values, Collect(p, relation, values))
    decreases p
  {
    match p {
      case And(args) => CollectAllExact(args, relation, values);
      case Equals(left, right) =>
        if Simple(p) {
          assert Bindings([p], relation) == if Items(left) == [] then Binding(left, right, relation)
                                            else PairBindings(Items(left), Items(right), relation);
          OneAdds(left, right, relation, values);
          PairsAdd(Items(left), Items(right), |Items(left)|, relation, values);
          WholePairs(Items(left), Items(right));
        } else {
          assert !Simple(Conjuncts(p)[0]);
        }
      case Condition(_) =>
      case _ => assert !Simple(Conjuncts(p)[0]);
    }
  }

  lemma WholePairs(left: seq<Expr>, right: seq<Expr>)
    requires |left| == |right|
    ensures left[..|left|] == left && right[..|left|] == right
  {
  }

  lemma {:induction false} CollectAllExact(ps: Preds, relation: Relation, values: Equalities)
    ensures CollectAll(ps, relation, values).Some? ==> AllSimple(ConjunctsOf(ps))
    ensures AllSimple(ConjunctsOf(ps)) ==> Adds(Bindings(ConjunctsOf(ps), relation), values, CollectAll(ps, relation, values))
    decreases ps
  {
    if ps.Cons? {
      var sofar := Collect(ps.head, relation, values);
      CollectExact(ps.head, relation, values);
      if sofar.Some? {
        CollectAllExact(ps.tail, relation, sofar.value);
      }
      SimpleParts(Conjuncts(ps.head), ConjunctsOf(ps.tail));
      if AllSimple(ConjunctsOf(ps)) {
        BindingsJoin(Conjuncts(ps.head), ConjunctsOf(ps.tail), relation);
        AddsTwice(Bindings(Conjuncts(ps.head), relation), Bindings(ConjunctsOf(ps.tail), relation), values, sofar,
                  CollectAll(ps, relation, values));
      }
    }
  }

  lemma SimpleParts(a: seq<Pred>, b: seq<Pred>)
    ensures AllSimple(a + b) <==> AllSimple(a) && AllSimple(b)
  {
    assert forall i :: 0 <= i < |a| ==> (a + b)[i] == a[i];
    assert forall i :: 0 <= i < |b| ==> (a + b)[|a| + i] == b[i];
  }

  // --------------------------------------------------------------------------- ordered values

  function FamilyAt(families: seq<Family>, columns: seq<string>, i: nat): Family
    requires i < |columns|
  {
    if |families| == |columns| then families[i] else Untyped
  }

  /** The canonical key values of the first n key columns. */
  function OrderedTexts(
      values: Equalities, parameters: seq<Option<string>>, columns: seq<string>, families: seq<Family>,
      n: nat): (r: Option<seq<string>>)
    requires n <= |columns|
    ensures r.Some? ==> |r.value| == n
    ensures r.Some? ==> forall i :: 0 <= i < n ==> columns[i] in values
    ensures r.Some? ==> forall i :: 0 <= i < n ==>
      ScalarValue(values[columns[i]], parameters, FamilyAt(families, columns, i)) == Some(r.value[i])
  {
    if n == 0 then Some([]) else
      match OrderedTexts(values, parameters, columns, families, n - 1)
      case None => None
      case Some(before) =>
        if columns[n - 1] !in values then None else
          match ScalarValue(values[columns[n - 1]], parameters, FamilyAt(families, columns, n - 1))
          case None => None
          case Some(value) => Some(before + [value])
  }

  /** The key has its texts exactly when every key column is bound to an operand the router can read. */
  lemma {:induction false} OrderedExact(
      values: Equalities, parameters: seq<Option<string>>, columns: seq<string>, families: seq<Family>, n: nat)
    requires n <= |columns|
    ensures OrderedTexts(values, parameters, columns, families, n).Some? <==>
      forall i :: 0 <= i < n ==>
        columns[i] in values && ScalarValue(values[columns[i]], parameters, FamilyAt(families, columns, i)).Some?
  {
    if n > 0 {
      OrderedExact(values, parameters, columns, families, n - 1);
    }
  }

  method OrderedValues(
      values: Equalities, parameters: seq<Option<string>>, columns: seq<string>, families: seq<Family>)
    returns (r: Option<seq<string>>)
    ensures r == OrderedTexts(values, parameters, columns, families, |columns|)
  {
    var result, n := [], 0;
    while n < |columns|
      invariant n <= |columns| && OrderedTexts(values, parameters, columns, families, n) == Some(result)
    {
      var value: Option<string> := None;
      if columns[n] in values {
        value := ScalarValue(values[columns[n]], parameters, FamilyAt(families, columns, n));
      }
      if value.None? {
        OrderedStops(values, parameters, columns, families, n + 1);
        return None;
      }
      result, n := result + [value.value], n + 1;
    }
    return Some(result);
  }

  lemma {:induction false} OrderedStops(
      values: Equalities, parameters: seq<Option<string>>, columns: seq<string>, families: seq<Family>, n: nat)
    requires n <= |columns| && OrderedTexts(values, parameters, columns, families, n).None?
    ensures OrderedTexts(values, parameters, columns, families, |columns|).None?
    decreases |columns| - n
  {
    if n < |columns| {
      OrderedStops(values, parameters, columns, families, n + 1);
    }
  }
}
