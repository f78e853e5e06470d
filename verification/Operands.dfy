/** Which operands of a comparison the router can read, and as which text. */
module Operands {
  import opened Text
  import opened Decimal
  import opened Scalar
  import opened Router

  /** A column of the relation is named by itself, behind the table's name, or its alias if it has one, or
      behind schema and table; no other reference is taken for one. */
  lemma ColumnNameIs(e: Expr, relation: Relation, column: string)
    ensures ColumnName(e, relation) == Some(column) <==>
      || e == Column([column])
      || e == Column([if relation.alias.Some? then relation.alias.value else relation.name, column])
      || e == Column([relation.schema, relation.name, column])
  {
    if ColumnName(e, relation) == Some(column) {
      var n := |e.parts|;
      assert e.parts == e.parts[..n - 1] + [column];
    }
  }

  /** A literal or a parameter that is given, under COLLATE clauses and casts. */
  predicate Wraps(e: Expr, bottom: Expr, family: Family) {
    match e
    case Cast(arg, typeName, _) => typeName.Some? && FamilyOf(typeName.value) == family && Wraps(arg, bottom, family)
    case Collate(arg, _) => Wraps(arg, bottom, family)
    case _ => e == bottom && (e.Const? || e.Param?)
  }

  /** Casts to the column's own type and COLLATE clauses change nothing about the key text. */
  lemma {:induction false} WrappedReadsAlike(e: Expr, bottom: Expr, family: Family, parameters: seq<Option<string>>)
    requires Wraps(e, bottom, family)
    ensures ScalarValue(e, parameters, family) == ScalarValue(bottom, parameters, family)
    ensures match RawValue(e, parameters)
      case None => ScalarValue(bottom, parameters, family).None?
      case Some(raw) => raw.cast.Some? ==> raw.cast.value == family
  {
    match e {
      case Cast(arg, _, _) =>
        WrappedReadsAlike(arg, bottom, family, parameters);
        CastReadsAlike(e, family, parameters);
      case Collate(arg, _) => WrappedReadsAlike(arg, bottom, family, parameters);
      case _ =>
    }
  }

  lemma CastReadsAlike(e: Expr, family: Family, parameters: seq<Option<string>>)
    requires e.Cast? && e.typeName.Some? && FamilyOf(e.typeName.value) == family
    requires match RawValue(e.arg, parameters) case None => true case Some(raw) => raw.cast.Some? ==> raw.cast.value == family
    ensures ScalarValue(e, parameters, family) == ScalarValue(e.arg, parameters, family)
    ensures RawValue(e, parameters).None? ==> ScalarValue(e, parameters, family).None?
    ensures RawValue(e, parameters).Some? ==> RawValue(e, parameters).value.cast == Some(family)
  {
    var raw := RawValue(e.arg, parameters);
    if raw.Some? && CanonicalScalar(raw.value.text, family).Some? {
      CanonicalScalarFixed(raw.value.text, family);
    }
  }

  /** A constant is read as what it is: a quoted text as itself, a number as the number, a truth value as that
      value, and NULL not at all. */
  lemma ConstantIsRead(c: Constant, parameters: seq<Option<string>>)
    ensures var raw := RawValue(Const(c), parameters);
      match c
      case StringConst(s) => raw == Some(Raw(s, None))
      case FloatConst(digits) => raw == Some(Raw(digits, None))
      case IntConst(n) => raw.Some? && raw.value.cast.None? && ParseInt(raw.value.text) == Some(n)
      case BoolConst(b) => raw.Some? && raw.value.cast.None? && Truth(raw.value.text) == Some(b)
      case NullConst => raw.None?
  {
    match c {
      case IntConst(n) => FormatIntReads(n);
      case BoolConst(b) => FormatBoolReads(b);
      case _ =>
    }
  }

  /** Parameters are counted from one; one that is NULL or missing is not read. */
  lemma ParameterIsRead(before: seq<Option<string>>, parameter: Option<string>, after: seq<Option<string>>, number: int)
    ensures RawText(parameter) == RawValue(Param(|before| + 1), before + [parameter] + after)
    ensures number < 1 || number > |before| ==> RawValue(Param(number), before).None?
  {
  }

  /** A sign before an unsigned number gives the signed number. */
  lemma SignIsRead(minus: bool, n: nat, parameters: seq<Option<string>>)
    ensures var raw := RawValue(Signed(minus, Const(IntConst(n))), parameters);
      raw.Some? && ParseInt(raw.value.text) == Some(if minus then 0 - n else n)
  {
    FormatNatReads(n);
    var digits, sign := FormatNat(n), if minus then Minus else Plus;
    var v := PrintSign(sign) + digits;
    assert v == Router.SignText(minus) + FormatInt(n);
    TightIsTrimmed(v);
    SignReadsBack(sign, digits);
  }
}
