/** What statements mean to PostgreSQL, and why a routed predicate can only match rows of one key. */
module Meaning {
  import opened Text
  import opened Decimal
  import opened Scalar
  import opened Rounding
  import opened Literals
  import opened Modifiers
  import opened Router

  /** A row maps its columns to values; None is NULL. */
  type Row = map<string, Option<KeyValue>>

  /** What the router takes on trust from PostgreSQL: how a literal is read as a value of a type, what
      an explicit cast's modifiers do to it, what storing it in a column does, which values a collation holds
      equal, and everything the router does not look into. */
  datatype Server = Server(
    read: (string, Family) -> Option<KeyValue>,
    coerce: (KeyValue, Family, seq<int>) -> Option<KeyValue>,
    assign: (KeyValue, string) -> Option<KeyValue>,
    same: (string, Family, KeyValue, KeyValue) -> bool,
    value: (Expr, Row) -> Option<KeyValue>,
    truth: (Pred, Row) -> Truth3)

  datatype Truth3 = True | False | Null

  /** The context one statement is evaluated in: the relation, its column types, the limits their modifiers
      set and their collations, the parameters. */
  datatype Context = Context(
    relation: Relation, families: map<string, Family>, limits: map<string, int>, collations: map<string, string>,
    parameters: seq<Option<string>>, server: Server)

  /** Literals have the type they are read as, and one the router accepts is read as what PostgreSQL takes it
      for. */
  ghost predicate ReadsLiterals(server: Server) {
    && (forall s, f :: server.read(s, f).Some? ==> OfFamily(server.read(s, f).value, f))
    && (forall s, f :: CanonicalScalar(s, f).Some? && server.read(s, f).Some? ==>
          server.read(s, f).value == ReadAs(s, f))
  }

  /** Casts and columns do to a value what their modifiers say, or refuse it. */
  ghost predicate AppliesLimits(cx: Context) {
    && (forall k, f, m :: OfFamily(k, f) && cx.server.coerce(k, f, m).Some? ==>
          cx.server.coerce(k, f, m).value == Coerced(k, f, LimitOf(f, m)))
    && (forall k, c :: OfFamily(k, ColumnFamily(cx, c)) && cx.server.assign(k, c).Some? ==>
          cx.server.assign(k, c).value == Coerced(k, ColumnFamily(cx, c), ColumnLimit(cx, c)))
  }

  /** The types whose values are compared under a collation. */
  predicate Collatable(family: Family) {
    IsText(family) || family.Untyped? || family.Unknown?
  }

  /** A value equals itself, and only values of its type; without a collation it equals nothing else. */
  ghost predicate Equates(server: Server) {
    && (forall c, f, a :: server.same(c, f, a, a))
    && (forall c, f, a, b :: OfFamily(b, f) && server.same(c, f, a, b) ==> OfFamily(a, f) && (!Collatable(f) ==> a == b))
  }

  ghost predicate Faithful(cx: Context) {
    ReadsLiterals(cx.server) && AppliesLimits(cx) && Equates(cx.server)
  }

  /** The collation an expression names, if it names one: the outermost. */
  function Named(e: Expr): Option<string> {
    match e
    case Collate(_, collation) => Some(collation)
    case Cast(arg, _, _) => Named(arg)
    case Signed(_, arg) => Named(arg)
    case _ => None
  }

  /** The collation of a comparison: the one the operand names, or else the column's. */
  function CollationOf(column: string, e: Expr, cx: Context): string {
    match Named(e)
    case Some(collation) => collation
    case None => if column in cx.collations then cx.collations[column] else ""
  }

  function ColumnLimit(cx: Context, column: string): Option<int> {
    if column in cx.limits then Some(cx.limits[column]) else None
  }

  function ColumnFamily(cx: Context, column: string): Family {
    if column in cx.families then cx.families[column] else Unknown
  }

  function ColumnValue(row: Row, column: string): Option<KeyValue> {
    if column in row then row[column] else None
  }

  function Negated(k: KeyValue): Option<KeyValue> {
    match k
    case Whole(n) => Some(Whole(0 - n))
    case Number(x) => Some(Number(0.0 - x))
    case _ => None
  }

  function Positive(k: KeyValue): Option<KeyValue> {
    match k
    case Whole(_) => Some(k)
    case Number(_) => Some(k)
    case _ => None
  }

  function WithSign(minus: bool, k: KeyValue): Option<KeyValue> {
    if minus then Negated(k) else Positive(k)
  }

  /** The text PostgreSQL makes of an unquoted number on its way to a type: its own where that is a text, a
      decimal one for an oid. */
  function NumberRead(digits: string, family: Family): string {
    if IsText(family) then NumberText(digits)
    else if Unsigned(family) && ParseInt(digits).Some? then FormatInt(ParseInt(digits).value)
    else digits
  }

  function SpokenText(c: Constant, text: string, family: Family): string {
    if c.FloatConst? then NumberRead(text, family) else text
  }

  /** An unsigned number with a sign wraps around. */
  function Wrapped(k: Option<KeyValue>, family: Family): Option<KeyValue> {
    match k case None => None case Some(v) => Some(if Unsigned(family) then Coerced(v, family, Some(0)) else v)
  }

  /** The value of an expression compared with, or assigned to, a column of the family. */
  function Operand(e: Expr, family: Family, row: Row, cx: Context): Option<KeyValue> {
    match e
    case Column(_) =>
      (match ColumnName(e, cx.relation) case Some(c) => ColumnValue(row, c) case None => cx.server.value(e, row))
    case Const(c) =>
      (match ConstText(c) case None => None case Some(s) => cx.server.read(SpokenText(c, s, family), family))
    case Param(number) =>
      (match ParamText(number, cx.parameters) case None => None case Some(s) => cx.server.read(s, family))
    case Cast(arg, typeName, modifiers) =>
      if typeName.None? || FamilyOf(typeName.value) != family then cx.server.value(e, row) else
        (match Operand(arg, family, row, cx) case None => None case Some(k) => cx.server.coerce(k, family, modifiers))
    case Collate(arg, _) => Operand(arg, family, row, cx)
    case Signed(minus, arg) =>
      (match Operand(arg, family, row, cx)
       case None => None
       case Some(k) => Wrapped(WithSign(minus, k), family))
    case _ => cx.server.value(e, row)
  }

  /** SQL equality of a column and an operand. */
  function Compare(column: string, e: Expr, row: Row, cx: Context): Truth3 {
    var family := ColumnFamily(cx, column);
    var a, b := ColumnValue(row, column), Operand(e, family, row, cx);
    if a.None? || b.None? then Null
    else if cx.server.same(CollationOf(column, e, cx), family, a.value, b.value) then True
    else False
  }

  /** SQL equality of two scalar expressions. */
  function Equal(left: Expr, right: Expr, row: Row, cx: Context): Truth3 {
    match ColumnName(left, cx.relation)
    case Some(c) => Compare(c, right, row, cx)
    case None =>
      match ColumnName(right, cx.relation)
      case Some(c) => Compare(c, left, row, cx)
      case None => cx.server.truth(Equals(left, right), row)
  }

  function Conjoin(a: Truth3, b: Truth3): Truth3 {
    if a == False || b == False then False else if a == Null || b == Null then Null else True
  }

  function Negate(a: Truth3): Truth3 {
    match a case True => False case False => True case Null => Null
  }

  function EqualPairs(left: seq<Expr>, right: seq<Expr>, n: nat, row: Row, cx: Context): Truth3
    requires n <= |left| == |right|
  {
    if n == 0 then True else Conjoin(EqualPairs(left, right, n - 1, row, cx), Equal(left[n - 1], right[n - 1], row, cx))
  }

  /** Three-valued evaluation of a WHERE clause. */
  function Eval(p: Pred, row: Row, cx: Context): Truth3 {
    match p
    case And(args) => EvalAll(args, row, cx)
    case Or(args) => Negate(EvalNone(args, row, cx))
    case Not(arg) => Negate(Eval(arg, row, cx))
    case Equals(left, right) =>
      var l, r := Items(left), Items(right);
      if l == [] && r == [] then Equal(left, right, row, cx)
      else if |l| == |r| then EqualPairs(l, r, |l|, row, cx)
      else cx.server.truth(p, row)
    case Condition(_) => cx.server.truth(p, row)
  }

  function EvalAll(ps: Preds, row: Row, cx: Context): Truth3 {
    match ps case Nil => True case Cons(p, rest) => Conjoin(Eval(p, row, cx), EvalAll(rest, row, cx))
  }

  function EvalNone(ps: Preds, row: Row, cx: Context): Truth3 {
    match ps case Nil => True case Cons(p, rest) => Conjoin(Negate(Eval(p, row, cx)), EvalNone(rest, row, cx))
  }

  /** A row a WHERE clause keeps. */
  predicate Satisfies(p: Pred, row: Row, cx: Context) {
    Eval(p, row, cx) == True
  }

  // ----------------------------------------------------------------------- collection is sound

  /** Each collected column equals its operand. */
  predicate Holds(values: Equalities, row: Row, cx: Context) {
    forall c :: c in values ==> Compare(c, values[c], row, cx) == True
  }

  lemma CollectOneSound(left: Expr, right: Expr, values: Equalities, row: Row, cx: Context)
    requires Equal(left, right, row, cx) == True && Holds(values, row, cx)
    requires CollectOne(left, right, cx.relation, values).Some?
    ensures Holds(CollectOne(left, right, cx.relation, values).value, row, cx)
  {
  }

  lemma {:induction false} CollectPairsSound(
      left: seq<Expr>, right: seq<Expr>, n: nat, values: Equalities, row: Row, cx: Context)
    requires n <= |left| == |right| && EqualPairs(left, right, n, row, cx) == True && Holds(values, row, cx)
    requires CollectPairs(left, right, n, cx.relation, values).Some?
    ensures Holds(CollectPairs(left, right, n, cx.relation, values).value, row, cx)
  {
    if n > 0 {
      CollectPairsSound(left, right, n - 1, values, row, cx);
      CollectOneSound(left[n - 1], right[n - 1], CollectPairs(left, right, n - 1, cx.relation, values).value, row, cx);
    }
  }

  lemma {:induction false} CollectSound(p: Pred, values: Equalities, row: Row, cx: Context)
    requires Satisfies(p, row, cx) && Holds(values, row, cx) && Collect(p, cx.relation, values).Some?
    ensures Holds(Collect(p, cx.relation, values).value, row, cx)
    decreases p
  {
    match p {
      case And(args) => CollectAllSound(args, values, row, cx);
      case Equals(left, right) =>
        var l, r := Items(left), Items(right);
        if l == [] && r == [] {
          CollectOneSound(left, right, values, row, cx);
        } else {
          CollectPairsSound(l, r, |l|, values, row, cx);
        }
      case _ =>
    }
  }

  lemma {:induction false} CollectAllSound(ps: Preds, values: Equalities, row: Row, cx: Context)
    requires EvalAll(ps, row, cx) == True && Holds(values, row, cx) && CollectAll(ps, cx.relation, values).Some?
    ensures Holds(CollectAll(ps, cx.relation, values).value, row, cx)
    decreases ps
  {
    if ps.Cons? {
      CollectSound(ps.head, values, row, cx);
      CollectAllSound(ps.tail, Collect(ps.head, cx.relation, values).value, row, cx);
    }
  }

  // -------------------------------------------------------- predicates made of key equalities

  /** An equality that is collected for one of the columns. */
  predicate PurePair(left: Expr, right: Expr, relation: Relation, columns: seq<string>) {
    match ColumnName(left, relation)
    case Some(c) => c in columns
    case None => match ColumnName(right, relation) case Some(c) => c in columns case None => false
  }

  /** Nothing but ANDs of such equalities. */
  predicate Pure(p: Pred, relation: Relation, columns: seq<string>) {
    match p
    case And(args) => PureAll(args, relation, columns)
    case Equals(left, right) =>
      var l, r := Items(left), Items(right);
      if l == [] && r == [] then PurePair(left, right, relation, columns)
      else |l| == |r| && forall i :: 0 <= i < |l| ==> PurePair(l[i], r[i], relation, columns)
    case _ => false
  }

  predicate PureAll(ps: Preds, relation: Relation, columns: seq<string>) {
    match ps case Nil => true case Cons(p, rest) => Pure(p, relation, columns) && PureAll(rest, relation, columns)
  }

  /** Equalities only come in, and only for the columns. */
  ghost predicate Grown(before: Equalities, after: Equalities, columns: seq<string>) {
    && (forall c :: c in before ==> c in after && after[c] == before[c])
    && (forall c :: c in after ==> c in before || c in columns)
  }

  lemma CollectOneGrows(left: Expr, right: Expr, relation: Relation, values: Equalities, columns: seq<string>)
    requires PurePair(left, right, relation, columns) && CollectOne(left, right, relation, values).Some?
    ensures Grown(values, CollectOne(left, right, relation, values).value, columns)
  {
  }

  lemma {:induction false} CollectPairsGrows(
      left: seq<Expr>, right: seq<Expr>, n: nat, relation: Relation, values: Equalities, columns: seq<string>)
    requires n <= |left| == |right| && (forall i :: 0 <= i < n ==> PurePair(left[i], right[i], relation, columns))
    requires CollectPairs(left, right, n, relation, values).Some?
    ensures Grown(values, CollectPairs(left, right, n, relation, values).value, columns)
  {
    if n > 0 {
      CollectPairsGrows(left, right, n - 1, relation, values, columns);
      CollectOneGrows(left[n - 1], right[n - 1], relation, CollectPairs(left, right, n - 1, relation, values).value, columns);
    }
  }

  lemma {:induction false} CollectGrows(p: Pred, relation: Relation, values: Equalities, columns: seq<string>)
    requires Pure(p, relation, columns) && Collect(p, relation, values).Some?
    ensures Grown(values, Collect(p, relation, values).value, columns)
    decreases p
  {
    match p {
      case And(args) => CollectAllGrows(args, relation, values, columns);
      case Equals(left, right) =>
        var l, r := Items(left), Items(right);
        if l == [] && r == [] {
          CollectOneGrows(left, right, relation, values, columns);
        } else {
          CollectPairsGrows(l, r, |l|, relation, values, columns);
        }
      case _ =>
    }
  }

  lemma {:induction false} CollectAllGrows(ps: Preds, relation: Relation, values: Equalities, columns: seq<string>)
    requires PureAll(ps, relation, columns) && CollectAll(ps, relation, values).Some?
    ensures Grown(values, CollectAll(ps, relation, values).value, columns)
    decreases ps
  {
    if ps.Cons? {
      CollectGrows(ps.head, relation, values, columns);
      CollectAllGrows(ps.tail, relation, Collect(ps.head, relation, values).value, columns);
    }
  }

  /** All collected so far is part of what holds. */
  ghost predicate PartOf(some: Equalities, all: Equalities) {
    forall c :: c in some ==> c in all && all[c] == some[c]
  }

  lemma {:induction false} CollectPairsComplete(
      left: seq<Expr>, right: seq<Expr>, n: nat, values: Equalities, all: Equalities, columns: seq<string>, row: Row,
      cx: Context)
    requires n <= |left| == |right| && (forall i :: 0 <= i < n ==> PurePair(left[i], right[i], cx.relation, columns))
    requires CollectPairs(left, right, n, cx.relation, values).Some? && Holds(all, row, cx)
    requires PartOf(CollectPairs(left, right, n, cx.relation, values).value, all)
    ensures EqualPairs(left, right, n, row, cx) == True
  {
    if n > 0 {
      var sofar := CollectPairs(left, right, n - 1, cx.relation, values).value;
      PairComplete(left[n - 1], right[n - 1], sofar, all, columns, row, cx);
      CollectPairsComplete(left, right, n - 1, values, all, columns, row, cx);
    }
  }

  lemma PairComplete(
      left: Expr, right: Expr, sofar: Equalities, all: Equalities, columns: seq<string>, row: Row, cx: Context)
    requires PurePair(left, right, cx.relation, columns) && CollectOne(left, right, cx.relation, sofar).Some?
    requires PartOf(CollectOne(left, right, cx.relation, sofar).value, all) && Holds(all, row, cx)
    ensures Equal(left, right, row, cx) == True && PartOf(sofar, all)
  {
    CollectOneGrows(left, right, cx.relation, sofar, columns);
    CollectOneComplete(left, right, sofar, all, columns, row, cx);
  }

  lemma CollectOneComplete(
      left: Expr, right: Expr, values: Equalities, all: Equalities, columns: seq<string>, row: Row, cx: Context)
    requires PurePair(left, right, cx.relation, columns) && CollectOne(left, right, cx.relation, values).Some?
    requires PartOf(CollectOne(left, right, cx.relation, values).value, all) && Holds(all, row, cx)
    ensures Equal(left, right, row, cx) == True
  {
    var made := CollectOne(left, right, cx.relation, values).value;
    var c := if ColumnName(left, cx.relation).Some? then ColumnName(left, cx.relation).value else ColumnName(right, cx.relation).value;
    assert c in made && Compare(c, all[c], row, cx) == True;
  }

  /** A predicate of key equalities accepts every row on which they hold. */
  lemma {:induction false} CollectComplete(
      p: Pred, values: Equalities, all: Equalities, columns: seq<string>, row: Row, cx: Context)
    requires Pure(p, cx.relation, columns) && Collect(p, cx.relation, values).Some?
    requires PartOf(Collect(p, cx.relation, values).value, all) && Holds(all, row, cx)
    ensures Satisfies(p, row, cx)
    decreases p
  {
    match p {
      case And(args) => CollectAllComplete(args, values, all, columns, row, cx);
      case Equals(left, right) =>
        var l, r := Items(left), Items(right);
        if l == [] && r == [] {
          CollectOneComplete(left, right, values, all, columns, row, cx);
        } else {
          CollectPairsComplete(l, r, |l|, values, all, columns, row, cx);
        }
      case _ =>
    }
  }

  lemma {:induction false} CollectAllComplete(
      ps: Preds, values: Equalities, all: Equalities, columns: seq<string>, row: Row, cx: Context)
    requires PureAll(ps, cx.relation, columns) && CollectAll(ps, cx.relation, values).Some?
    requires PartOf(CollectAll(ps, cx.relation, values).value, all) && Holds(all, row, cx)
    ensures EvalAll(ps, row, cx) == True
    decreases ps
  {
    if ps.Cons? {
      var sofar := Collect(ps.head, cx.relation, values).value;
      CollectAllGrows(ps.tail, cx.relation, sofar, columns);
      CollectComplete(ps.head, values, all, columns, row, cx);
      CollectAllComplete(ps.tail, sofar, all, columns, row, cx);
    }
  }

  // ------------------------------------------------------------------- texts denote the operands

  /** Every cast is to the column's own type, and unquoted numbers are as the lexer leaves them. */
  predicate OwnCasts(e: Expr, family: Family) {
    match e
    case Const(c) => c.FloatConst? ==> NumberToken(c.digits)
    case Cast(arg, typeName, _) => typeName.Some? && FamilyOf(typeName.value) == family && OwnCasts(arg, family)
    case Collate(arg, _) => OwnCasts(arg, family)
    case Signed(_, arg) => OwnCasts(arg, family)
    case _ => true
  }

  /** The constant means to PostgreSQL what its text means to the router: a number that becomes a text has
      that text, and a quoted oid is decimal. */
  predicate Straight(e: Expr, family: Family, parameters: seq<Option<string>>) {
    match e
    case Const(c) =>
      if c.FloatConst? then IsText(family) ==> NumberText(c.digits) == c.digits
      else ConstText(c).Some? ==> DecimalOid(ConstText(c).value, family)
    case Param(number) => ParamText(number, parameters).Some? ==> DecimalOid(ParamText(number, parameters).value, family)
    case Cast(arg, _, _) => Straight(arg, family, parameters)
    case Collate(arg, _) => Straight(arg, family, parameters)
    case Signed(_, arg) => Straight(arg, family, parameters)
    case _ => true
  }

  /** What a caller can check of a key operand: the constant is straight, and its text fits the limits. */
  predicate OperandFits(text: string, e: Expr, family: Family, limits: set<int>, parameters: seq<Option<string>>) {
    Straight(e, family, parameters) && FitsAll(text, family, limits)
  }

  /** And of a copied key text. */
  predicate CopiedFits(value: string, family: Family, limits: set<int>)
    requires CanonicalScalar(value, family).Some?
  {
    DecimalOid(value, family) && FitsAll(CanonicalScalar(value, family).value, family, limits)
  }

  function Only(limit: Option<int>): set<int> {
    match limit case None => {} case Some(n) => {n}
  }

  /** The limits a constant passes on its way: those of its type and of the casts around it. */
  function Passed(e: Expr, family: Family): set<int> {
    match e
    case Cast(arg, _, modifiers) => Passed(arg, family) + Only(LimitOf(family, modifiers))
    case Collate(arg, _) => Passed(arg, family)
    case Signed(_, arg) => Passed(arg, family)
    case _ => Only(ReadLimit(family))
  }

  ghost predicate WithinAll(k: KeyValue, family: Family, limits: set<int>) {
    forall n :: n in limits ==> Within(k, family, n)
  }

  /** What a caller can check of a key text and the limits on its way. */
  predicate FitsAll(text: string, family: Family, limits: set<int>) {
    forall n :: n in limits ==> FitsLimit(text, family, n)
  }

  lemma FitsAllIsWithin(text: string, family: Family, limits: set<int>)
    requires CanonicalScalar(text, family) == Some(text)
    ensures FitsAll(text, family, limits) <==> WithinAll(Denotes(text, family), family, limits)
    ensures OfFamily(Denotes(text, family), family)
  {
    FitsIsWithin(text, family, 0);
    forall n ensures FitsLimit(text, family, n) <==> Within(Denotes(text, family), family, n) {
      FitsIsWithin(text, family, n);
    }
  }

  lemma {:induction false} TrimRightSigned(c: char, s: string)
    requires !IsSpace(c)
    ensures TrimRight([c] + s) == [c] + TrimRight(s)
    ensures TrimRight(s) <= s
  {
    if s != "" && IsSpace(s[|s| - 1]) {
      assert ([c] + s)[..|s|] == [c] + s[..|s| - 1];
      TrimRightSigned(c, s[..|s| - 1]);
    }
  }

  /** A sign in front of a text that starts with a digit or a point is that text's only sign. */
  lemma SignStrips(minus: bool, s: string)
    ensures LeadingSign(TrimSpace(Router.SignText(minus) + s)) == if minus then Minus else Plus
    ensures AfterSign(TrimSpace(Router.SignText(minus) + s)) == TrimRight(s)
    ensures var d := TrimRight(s);
      d != "" && (IsDigit(d[0]) || d[0] == '.') ==> TrimSpace(s) == d && LeadingSign(d) == NoSign && AfterSign(d) == d
  {
    SignInFront(if minus then '-' else '+', s);
    DigitInFront(s);
  }

  lemma SignInFront(c: char, s: string)
    requires c == '-' || c == '+'
    ensures TrimSpace([c] + s) == [c] + TrimRight(s) && ([c] + TrimRight(s))[1..] == TrimRight(s)
  {
    TrimRightSigned(c, s);
  }

  lemma DigitInFront(s: string)
    ensures var d := TrimRight(s);
      d != "" && (IsDigit(d[0]) || d[0] == '.') ==> TrimSpace(s) == d && LeadingSign(d) == NoSign && AfterSign(d) == d
  {
    TrimRightSigned('+', s);
  }

  lemma SignedIntDenotes(minus: bool, s: string)
    requires ParseInt(Router.SignText(minus) + s).Some?
    ensures ParseInt(s).Some?
    ensures ParseInt(Router.SignText(minus) + s).value == if minus then 0 - ParseInt(s).value else ParseInt(s).value
  {
    SignStrips(minus, s);
    var d := TrimRight(s);
    assert IsDigit(d[0]);
  }

  function NumberOf(s: string): KeyValue
    requires Parse(s).Some?
  {
    Number(Value(Parse(s).value))
  }

  lemma NumericDenotes(s: string)
    ensures CanonicalScalar(s, Numeric).Some? <==> Parse(s).Some?
    ensures Parse(s).Some? ==> Denotes(s, Numeric) == NumberOf(s)
  {
  }

  lemma ParsedBehindSign(minus: bool, s: string)
    requires Parse(Router.SignText(minus) + s).Some?
    ensures Parse(Router.SignText(minus) + s) == ParseUnsigned(TrimRight(s), minus)
    ensures Parse(s) == ParseUnsigned(TrimRight(s), false)
  {
    SignStrips(minus, s);
    UnsignedStarts(TrimRight(s), minus);
  }

  lemma OnlySignDiffers(body: string, minus: bool)
    requires ParseUnsigned(body, minus).Some?
    ensures ParseUnsigned(body, false).Some?
    ensures ParseUnsigned(body, minus).value == ParseUnsigned(body, false).value.(negative := minus)
    ensures !ParseUnsigned(body, false).value.negative
  {
  }

  lemma PartsSigned(p: Parts, q: Parts, minus: bool)
    requires !p.negative && q == p.(negative := minus)
    ensures Some(Number(Value(q))) == WithSign(minus, Number(Value(p)))
  {
  }

  lemma SignedDecimalDenotes(minus: bool, s: string)
    requires Parse(Router.SignText(minus) + s).Some?
    ensures Parse(s).Some?
    ensures Some(NumberOf(Router.SignText(minus) + s)) == WithSign(minus, NumberOf(s))
  {
    ParsedBehindSign(minus, s);
    OnlySignDiffers(TrimRight(s), minus);
    PartsSigned(Parse(s).value, Parse(Router.SignText(minus) + s).value, minus);
  }

  lemma IntegerDenotes(s: string, family: Family)
    requires family.Integer?
    ensures CanonicalScalar(s, family).Some? <==> ParseInt(s).Some?
    ensures ParseInt(s).Some? ==> Denotes(s, family) == Whole(ParseInt(s).value)
  {
  }

  lemma SignedDenotes(minus: bool, s: string, family: Family)
    requires CanonicalScalar(Router.SignText(minus) + s, family).Some? && (family.Integer? || family.Numeric?)
    ensures CanonicalScalar(s, family).Some?
    ensures Some(Denotes(Router.SignText(minus) + s, family)) == WithSign(minus, Denotes(s, family))
  {
    var signed := Router.SignText(minus) + s;
    if family.Integer? {
      IntegerDenotes(signed, family);
      IntegerDenotes(s, family);
      SignedIntDenotes(minus, s);
    } else {
      NumericDenotes(signed);
      NumericDenotes(s);
      SignedDecimalDenotes(minus, s);
    }
  }

  lemma CastTyped(k: KeyValue, family: Family, modifiers: seq<int>, cx: Context)
    requires AppliesLimits(cx) && OfFamily(k, family) && cx.server.coerce(k, family, modifiers).Some?
    ensures OfFamily(cx.server.coerce(k, family, modifiers).value, family)
  {
    if LimitOf(family, modifiers).Some? {
      CoercedKeeps(k, family, LimitOf(family, modifiers).value);
    }
  }

  lemma {:induction false} OperandTyped(e: Expr, family: Family, row: Row, cx: Context)
    requires Faithful(cx) && OwnCasts(e, family) && RawValue(e, cx.parameters).Some?
    ensures Operand(e, family, row, cx).Some? ==> OfFamily(Operand(e, family, row, cx).value, family)
  {
    match e {
      case Cast(arg, _, modifiers) =>
        OperandTyped(arg, family, row, cx);
        if Operand(e, family, row, cx).Some? {
          CastTyped(Operand(arg, family, row, cx).value, family, modifiers, cx);
        }
      case Collate(arg, _) => OperandTyped(arg, family, row, cx);
      case Signed(_, arg) => OperandTyped(arg, family, row, cx);
      case _ =>
    }
  }

  /** The value k came out of x under these limits: they all hold of it, and if they held of x it is x. */
  ghost predicate CameOut(k: KeyValue, x: KeyValue, family: Family, limits: set<int>) {
    WithinAll(k, family, limits) && (WithinAll(x, family, limits) ==> k == x)
  }

  lemma OneMoreLimit(k: KeyValue, x: KeyValue, family: Family, limits: set<int>, limit: Option<int>)
    requires OfFamily(k, family) && CameOut(k, x, family, limits)
    ensures CameOut(Coerced(k, family, limit), x, family, limits + Only(limit))
  {
    if limit.Some? {
      CoercedKeeps(k, family, limit.value);
      forall n | n in limits ensures Within(Coerced(k, family, limit), family, n) {
        CoercedAddsNothing(k, family, limit.value, n);
      }
      if WithinAll(x, family, limits + Only(limit)) {
        assert limit.value in limits + Only(limit);
        assert WithinAll(x, family, limits);
      }
    } else {
      assert limits + Only(limit) == limits;
    }
  }

  lemma SignKeepsLimits(minus: bool, k: KeyValue, family: Family, n: int)
    requires WithSign(minus, k).Some? && !Unsigned(family)
    ensures Within(WithSign(minus, k).value, family, n) <==> Within(k, family, n)
  {
    if k.Number? {
      WholeNegated(k.x, n);
    }
  }

  lemma SignCameOut(minus: bool, k: KeyValue, x: KeyValue, family: Family, limits: set<int>)
    requires CameOut(k, x, family, limits) && WithSign(minus, k).Some? && WithSign(minus, x).Some? && !Unsigned(family)
    ensures CameOut(WithSign(minus, k).value, WithSign(minus, x).value, family, limits)
  {
    forall n | n in limits
      ensures Within(WithSign(minus, k).value, family, n) <==> Within(k, family, n)
      ensures Within(WithSign(minus, x).value, family, n) <==> Within(x, family, n)
    {
      SignKeepsLimits(minus, k, family, n);
      SignKeepsLimits(minus, x, family, n);
    }
  }

  /** What an unsigned number with a sign wraps to came out of that number. */
  lemma WrapCameOut(y: KeyValue, family: Family, limits: set<int>)
    requires Unsigned(family) && OfFamily(y, family) && limits <= {0}
    ensures CameOut(Coerced(y, family, Some(0)), y, family, limits + {0}) && limits + {0} == {0}
  {
    CoercedKeeps(y, family, 0);
    assert limits + {0} == {0};
  }

  /** An unsigned operand passes no limit but its own. */
  lemma {:induction false} UnsignedPasses(e: Expr, family: Family, parameters: seq<Option<string>>)
    requires Unsigned(family) && RawValue(e, parameters).Some?
    ensures Passed(e, family) == {0}
  {
    match e {
      case Cast(arg, _, modifiers) => UnsignedPasses(arg, family, parameters);
      case Collate(arg, _) => UnsignedPasses(arg, family, parameters);
      case Signed(_, arg) => UnsignedPasses(arg, family, parameters);
      case _ =>
    }
  }

  /** An operand under a sign. */
  lemma SignedCameOut(minus: bool, k: KeyValue, text: string, family: Family, limits: set<int>)
    requires CanonicalScalar(Router.SignText(minus) + text, family).Some? && CanonicalScalar(text, family).Some?
    requires (family.Integer? || family.Numeric?) && OfFamily(k, family) && CameOut(k, Denotes(text, family), family, limits)
    requires Unsigned(family) ==> limits == {0}
    ensures var signed := Wrapped(WithSign(minus, k), family);
      signed.Some? && CameOut(signed.value, Denotes(Router.SignText(minus) + text, family), family, limits)
  {
    var y := Denotes(Router.SignText(minus) + text, family);
    SignedDenotes(minus, text, family);
    if Unsigned(family) {
      UnsignedText(minus, text);
      WrapCameOut(y, family, limits);
    } else {
      SignCameOut(minus, k, Denotes(text, family), family, limits);
    }
  }

  /** The text behind an integer's sign has no sign of its own. */
  lemma UnsignedText(minus: bool, s: string)
    requires ParseInt(Router.SignText(minus) + s).Some?
    ensures ParseInt(s).Some? && ParseInt(s).value >= 0
  {
    SignStrips(minus, s);
    var d := TrimRight(s);
    assert IsDigit(d[0]);
  }

  /** A straight operand's value came out of what the router's text denotes, under the limits on its way. */
  lemma {:induction false} RawDenotes(e: Expr, family: Family, row: Row, cx: Context)
    requires Faithful(cx) && OwnCasts(e, family) && Straight(e, family, cx.parameters)
    requires RawValue(e, cx.parameters).Some? && CanonicalScalar(RawValue(e, cx.parameters).value.text, family).Some?
    requires Operand(e, family, row, cx).Some?
    ensures CameOut(Operand(e, family, row, cx).value, Denotes(RawValue(e, cx.parameters).value.text, family), family,
                    Passed(e, family))
  {
    match e {
      case Cast(arg, typeName, modifiers) =>
        CanonicalScalarFixed(RawValue(arg, cx.parameters).value.text, family);
        RawDenotes(arg, family, row, cx);
        OperandTyped(arg, family, row, cx);
        OneMoreLimit(Operand(arg, family, row, cx).value, Denotes(RawValue(arg, cx.parameters).value.text, family),
                     family, Passed(arg, family), LimitOf(family, modifiers));
      case Collate(arg, _) => RawDenotes(arg, family, row, cx);
      case Signed(minus, arg) =>
        var text := RawValue(arg, cx.parameters).value.text;
        OperandTyped(arg, family, row, cx);
        SignedDenotes(minus, text, family);
        RawDenotes(arg, family, row, cx);
        if Unsigned(family) {
          UnsignedPasses(arg, family, cx.parameters);
        }
        SignedCameOut(minus, Operand(arg, family, row, cx).value, text, family, Passed(arg, family));
      case Const(c) => ConstantCameOut(c, family, cx);
      case Param(number) => LiteralCameOut(ParamText(number, cx.parameters).value, family);
      case _ =>
    }
  }

  lemma ConstantCameOut(c: Constant, family: Family, cx: Context)
    requires Faithful(cx) && Straight(Const(c), family, cx.parameters) && ConstText(c).Some?
    requires CanonicalScalar(ConstText(c).value, family).Some?
    requires cx.server.read(SpokenText(c, ConstText(c).value, family), family).Some?
    ensures CameOut(cx.server.read(SpokenText(c, ConstText(c).value, family), family).value, Denotes(ConstText(c).value, family),
                    family, Only(ReadLimit(family)))
  {
    if c.FloatConst? && Unsigned(family) {
      var n := ParseInt(c.digits).value;
      IntegerText(n, family.bytes, false);
      LiteralCameOut(FormatInt(n), family);
    } else {
      LiteralCameOut(ConstText(c).value, family);
    }
  }

  lemma LiteralCameOut(text: string, family: Family)
    requires CanonicalScalar(text, family).Some? && DecimalOid(text, family)
    ensures CameOut(ReadAs(text, family), Denotes(text, family), family, Only(ReadLimit(family)))
  {
    CanonicalScalarFixed(text, family);
    FitsIsWithin(CanonicalScalar(text, family).value, family, 0);
    assert CameOut(Denotes(text, family), Denotes(text, family), family, {});
    OneMoreLimit(Denotes(text, family), Denotes(text, family), family, {}, ReadLimit(family));
    assert {} + Only(ReadLimit(family)) == Only(ReadLimit(family));
  }

  // --------------------------------------------------------------------- other than straight

  /** The unquoted number at the bottom of an operand. */
  function BareNumber(e: Expr): Option<string> {
    match e
    case Const(c) => if c.FloatConst? then Some(c.digits) else None
    case Cast(arg, _, _) => BareNumber(arg)
    case Collate(arg, _) => BareNumber(arg)
    case Signed(_, arg) => BareNumber(arg)
    case _ => None
  }

  /** A number that becomes a text becomes a part of its own text, while the router keeps its spelling. */
  lemma {:induction false} NumberAsText(e: Expr, family: Family, row: Row, cx: Context)
    requires Faithful(cx) && OwnCasts(e, family) && IsText(family) && !Straight(e, family, cx.parameters)
    requires RawValue(e, cx.parameters).Some? && Operand(e, family, row, cx).Some?
    ensures BareNumber(e).Some? && NumberToken(BareNumber(e).value) && NumberText(BareNumber(e).value) != BareNumber(e).value
    ensures RawValue(e, cx.parameters).value.text == BareNumber(e).value
    ensures Operand(e, family, row, cx).value.Characters?
    ensures Operand(e, family, row, cx).value.s <= NumberText(BareNumber(e).value)
  {
    match e {
      case Cast(arg, _, _) =>
        NumberAsText(arg, family, row, cx);
        CastAsText(e, BareNumber(arg).value, NumberText(BareNumber(arg).value), family, row, cx);
      case Collate(arg, _) => NumberAsText(arg, family, row, cx);
      case Signed(_, arg) => OperandTyped(arg, family, row, cx);
      case Const(c) =>
        ReadStarts(NumberText(c.digits), family);
      case _ =>
    }
  }

  /** A cast of a text keeps the router's spelling and a beginning of the value. */
  lemma CastAsText(e: Expr, raw: string, text: string, family: Family, row: Row, cx: Context)
    requires Faithful(cx) && e.Cast? && OwnCasts(e, family) && IsText(family) && NumberToken(raw)
    requires RawValue(e, cx.parameters).Some? && RawValue(e.arg, cx.parameters).Some? && Operand(e, family, row, cx).Some?
    requires RawValue(e.arg, cx.parameters).value.text == raw && Operand(e.arg, family, row, cx).Some?
    requires Operand(e.arg, family, row, cx).value.Characters? && Operand(e.arg, family, row, cx).value.s <= text
    ensures RawValue(e, cx.parameters).value.text == raw
    ensures Operand(e, family, row, cx).value.Characters? && Operand(e, family, row, cx).value.s <= text
  {
    OperandTyped(e.arg, family, row, cx);
    TokenUntrimmed(raw);
    CoercedStarts(Operand(e.arg, family, row, cx).value, family, LimitOf(family, e.modifiers));
  }

  lemma TokenUntrimmed(d: string)
    requires NumberToken(d)
    ensures TrimBlanks(d) == d
  {
  }

  /** A limit leaves a beginning of a text. */
  lemma CoercedStarts(k: KeyValue, family: Family, limit: Option<int>)
    requires IsText(family) && k.Characters?
    ensures Coerced(k, family, limit).Characters? && Coerced(k, family, limit).s <= k.s
  {
    if limit.Some? {
      TrimBlanksPrefix(Clipped(k.s, family, AtLeastZero(limit.value)));
    }
  }

  lemma ReadStarts(text: string, family: Family)
    requires IsText(family)
    ensures ReadAs(text, family).Characters? && ReadAs(text, family).s <= text
  {
    TrimBlanksPrefix(text);
    CoercedStarts(Denotes(text, family), family, ReadLimit(family));
  }

  /** An oid read in octal stays another number than the router's. */
  lemma {:induction false} OctalStays(e: Expr, family: Family, row: Row, cx: Context)
    requires Faithful(cx) && OwnCasts(e, family) && Unsigned(family) && !Straight(e, family, cx.parameters)
    requires RawValue(e, cx.parameters).Some? && CanonicalScalar(RawValue(e, cx.parameters).value.text, family).Some?
    requires Operand(e, family, row, cx).Some?
    ensures var k, x := Operand(e, family, row, cx).value, Denotes(RawValue(e, cx.parameters).value.text, family);
      k.Whole? && k.n >= 0 && k != x && x != Whole(0)
  {
    match e {
      case Cast(arg, _, modifiers) =>
        CanonicalScalarFixed(RawValue(arg, cx.parameters).value.text, family);
        OctalStays(arg, family, row, cx);
      case Collate(arg, _) => OctalStays(arg, family, row, cx);
      case Signed(minus, arg) =>
        var text := RawValue(arg, cx.parameters).value.text;
        SignedDenotes(minus, text, family);
        UnsignedText(minus, text);
        OctalStays(arg, family, row, cx);
        CoercedKeeps(WithSign(minus, Operand(arg, family, row, cx).value).value, family, 0);
      case Const(c) => OctalIsAnother(ConstText(c).value, family);
      case Param(number) => OctalIsAnother(ParamText(number, cx.parameters).value, family);
      case _ =>
    }
  }

  /** An operand that is not straight has another value than the router's text, and so has what a column's
      limit leaves of it. */
  lemma CrookedDiffers(e: Expr, family: Family, row: Row, limit: Option<int>, cx: Context)
    requires Faithful(cx) && OwnCasts(e, family) && !Straight(e, family, cx.parameters)
    requires RawValue(e, cx.parameters).Some? && CanonicalScalar(RawValue(e, cx.parameters).value.text, family).Some?
    requires Operand(e, family, row, cx).Some?
    ensures Coerced(Operand(e, family, row, cx).value, family, limit) != Denotes(RawValue(e, cx.parameters).value.text, family)
  {
    CrookedFamily(e, family, cx.parameters);
    if IsText(family) {
      NumberAsText(e, family, row, cx);
      TokenUntrimmed(BareNumber(e).value);
      CoercedStarts(Operand(e, family, row, cx).value, family, limit);
      if BareNumber(e).value <= NumberText(BareNumber(e).value) {
        TokenStartsText(BareNumber(e).value);
      }
    } else {
      OctalStays(e, family, row, cx);
    }
  }

  /** So it stays when it is stored. */
  lemma CrookedStays(e: Expr, family: Family, row: Row, limit: Option<int>, cx: Context)
    requires Faithful(cx) && OwnCasts(e, family) && !Straight(e, family, cx.parameters)
    requires ScalarValue(e, cx.parameters, family).Some? && Operand(e, family, row, cx).Some?
    ensures var text := ScalarValue(e, cx.parameters, family).value;
      && CanonicalScalar(text, family).Some?
      && Coerced(Operand(e, family, row, cx).value, family, limit) != Denotes(text, family)
  {
    CastIsOwn(e, family, cx.parameters);
    CanonicalScalarFixed(RawValue(e, cx.parameters).value.text, family);
    CrookedDiffers(e, family, row, limit, cx);
  }

  lemma {:induction false} CrookedFamily(e: Expr, family: Family, parameters: seq<Option<string>>)
    requires !Straight(e, family, parameters)
    ensures IsText(family) || Unsigned(family)
  {
    match e {
      case Cast(arg, _, _) => CrookedFamily(arg, family, parameters);
      case Collate(arg, _) => CrookedFamily(arg, family, parameters);
      case Signed(_, arg) => CrookedFamily(arg, family, parameters);
      case _ =>
    }
  }

  lemma {:induction false} CastIsOwn(e: Expr, family: Family, parameters: seq<Option<string>>)
    requires OwnCasts(e, family) && RawValue(e, parameters).Some?
    ensures var cast := RawValue(e, parameters).value.cast; cast.None? || cast == Some(family)
  {
    match e {
      case Collate(arg, _) => CastIsOwn(arg, family, parameters);
      case Signed(_, arg) => CastIsOwn(arg, family, parameters);
      case _ =>
    }
  }

  /** The canonical text of an operand, and what its value came out of. */
  lemma ScalarCameOut(e: Expr, family: Family, row: Row, cx: Context)
    requires Faithful(cx) && OwnCasts(e, family)
    requires ScalarValue(e, cx.parameters, family).Some? && Operand(e, family, row, cx).Some?
    ensures var text, k := ScalarValue(e, cx.parameters, family).value, Operand(e, family, row, cx).value;
      && CanonicalScalar(text, family) == Some(text) && OfFamily(k, family)
      && (Straight(e, family, cx.parameters) ==> CameOut(k, Denotes(text, family), family, Passed(e, family)))
      && (!Straight(e, family, cx.parameters) ==> k != Denotes(text, family))
  {
    CastIsOwn(e, family, cx.parameters);
    OperandTyped(e, family, row, cx);
    CanonicalScalarFixed(RawValue(e, cx.parameters).value.text, family);
    if Straight(e, family, cx.parameters) {
      RawDenotes(e, family, row, cx);
    } else {
      CrookedDiffers(e, family, row, None, cx);
    }
  }

  /** A routed operand's canonical text denotes the operand's value exactly when the constant is straight and
      the text fits the limits on its way: the digits of every numeric(p, s), the length of every varchar(n),
      char(n) and name, the sign of an oid. */
  lemma ScalarDenotes(e: Expr, family: Family, row: Row, cx: Context)
    requires Faithful(cx) && OwnCasts(e, family)
    requires ScalarValue(e, cx.parameters, family).Some? && Operand(e, family, row, cx).Some?
    ensures var text := ScalarValue(e, cx.parameters, family).value;
      && CanonicalScalar(text, family) == Some(text)
      && (Denotes(text, family) == Operand(e, family, row, cx).value
          <==> OperandFits(text, e, family, Passed(e, family), cx.parameters))
  {
    ScalarCameOut(e, family, row, cx);
    FitsAllIsWithin(ScalarValue(e, cx.parameters, family).value, family, Passed(e, family));
  }

  /** A constant operand has one value on all rows. */
  lemma {:induction false} ConstantOperand(e: Expr, family: Family, row: Row, other: Row, cx: Context)
    requires OwnCasts(e, family) && RawValue(e, cx.parameters).Some?
    ensures Operand(e, family, row, cx) == Operand(e, family, other, cx)
  {
    match e {
      case Cast(arg, _, _) => ConstantOperand(arg, family, row, other, cx);
      case Collate(arg, _) => ConstantOperand(arg, family, row, other, cx);
      case Signed(_, arg) => ConstantOperand(arg, family, row, other, cx);
      case _ =>
    }
  }

  /** The collation holds nothing else equal to the operand's value.  Of a deterministic one that is always
      so. */
  ghost predicate Alone(column: string, e: Expr, cx: Context) {
    var k := Operand(e, ColumnFamily(cx, column), map[], cx);
    k.Some? ==> forall v :: cx.server.same(CollationOf(column, e, cx), ColumnFamily(cx, column), v, k.value) ==> v == k.value
  }

  /** A deterministic collation holds only identical values equal. */
  ghost predicate Deterministic(collation: string, server: Server) {
    forall f, a, b :: server.same(collation, f, a, b) ==> a == b
  }

  lemma DeterministicAlone(column: string, e: Expr, cx: Context)
    requires Deterministic(CollationOf(column, e, cx), cx.server)
    ensures Alone(column, e, cx)
  {
  }

  /** Only collatable types need a collation to be looked at. */
  lemma UncollatedAlone(column: string, e: Expr, cx: Context)
    requires Faithful(cx) && !Collatable(ColumnFamily(cx, column))
    requires OwnCasts(e, ColumnFamily(cx, column)) && RawValue(e, cx.parameters).Some?
    ensures Alone(column, e, cx)
  {
    OperandTyped(e, ColumnFamily(cx, column), map[], cx);
  }

  /** Where it stands alone, a column that equals a constant operand has its value. */
  lemma AloneIsValue(column: string, e: Expr, row: Row, cx: Context)
    requires OwnCasts(e, ColumnFamily(cx, column)) && RawValue(e, cx.parameters).Some?
    requires Compare(column, e, row, cx) == True && Alone(column, e, cx)
    ensures ColumnValue(row, column) == Operand(e, ColumnFamily(cx, column), row, cx)
  {
    ConstantOperand(e, ColumnFamily(cx, column), row, map[], cx);
  }
}
