/** Which spellings of integers, booleans, UUIDs and type names the router reads, and as what. */
module Spellings {
  import opened Text
  import opened Decimal
  import opened Scalar

  // ---------------------------------------------------------------------------------- integers

  /** An integer is white space, a sign, digits of any number and white space, and is read as what it says. */
  lemma IntegerAccepted(left: string, sign: Sign, digits: string, right: string)
    requires AllSpaces(left) && AllSpaces(right) && digits != "" && AllDigits(digits)
    ensures ParseInt(left + (PrintSign(sign) + digits) + right) == Some(SignedNum(sign, digits))
  {
    var v := PrintSign(sign) + digits;
    assert v[|v| - 1] == digits[|digits| - 1];
    assert !IsSpace(v[0]) by {
      assert sign == NoSign ==> v == digits;
    }
    TrimSpaceDrops(left, v, right);
    SignReadsBack(sign, digits);
  }

  /** Nothing else is. */
  lemma OnlyIntegers(value: string) returns (left: string, sign: Sign, digits: string, right: string)
    requires ParseInt(value).Some?
    ensures AllSpaces(left) && AllSpaces(right) && digits != "" && AllDigits(digits)
    ensures value == left + (PrintSign(sign) + digits) + right
  {
    left, right := TrimSpaceSplits(value);
    sign, digits := LeadingSign(TrimSpace(value)), AfterSign(TrimSpace(value));
    SignPrintsBack(TrimSpace(value));
  }

  // ---------------------------------------------------------------------------------- booleans

  /** PostgreSQL's boolean input: a beginning of true, false, yes or no, on, a beginning of off that is not
      one of on, one and zero. */
  function PgTruth(word: string): Option<bool> {
    if word == "" then None
    else if word <= "true" || word <= "yes" || word == "on" || word == "1" then Some(true)
    else if word <= "false" || word <= "no" || word == "of" || word == "off" || word == "0" then Some(false)
    else None
  }

  /** The words PostgreSQL documents. */
  predicate Documented(word: string) {
    word in ["true", "yes", "on", "1", "t", "y", "false", "no", "off", "0", "f", "n"]
  }

  /** The router reads the documented words, in any case and with white space around them, and reads them as
      PostgreSQL does. */
  lemma BooleansAsPostgres(value: string)
    ensures Truth(value).Some? <==> Documented(ToLower(TrimSpace(value)))
    ensures Truth(value).Some? ==> Truth(value) == PgTruth(ToLower(TrimSpace(value)))
  {
    var word := ToLower(TrimSpace(value));
    if Truth(value) == Some(true) {
      TrueWord(word);
    } else if Truth(value) == Some(false) {
      FalseWord(word);
    }
  }

  lemma TrueWord(word: string)
    requires word in ["true", "yes", "on", "1", "t", "y"]
    ensures PgTruth(word) == Some(true)
  {
    if word == "t" {
      assert word == "true"[..1];
    } else if word == "y" {
      assert word == "yes"[..1];
    }
  }

  lemma FalseWord(word: string)
    requires word in ["false", "no", "off", "0", "f", "n"]
    ensures PgTruth(word) == Some(false)
  {
    assert word[0] != 't' && word[0] != 'y';
    if word == "f" {
      assert word == "false"[..1];
    } else if word == "n" {
      assert word == "no"[..1];
    }
  }

  // ------------------------------------------------------------------------------------- UUIDs

  predicate HexDigitOrDash(s: string) {
    forall i :: 0 <= i < |s| ==> Nibble(s[i]).Some? || s[i] == '-'
  }

  lemma {:induction false} LowerHexNibbles(s: string)
    requires LowerHex(s)
    ensures |Nibbles(s)| == |s|
  {
    if s != "" {
      LowerHexNibbles(s[..|s| - 1]);
    }
  }

  lemma {:induction false} DashesOut(s: string)
    requires HexOrDash(s)
    ensures LowerHex(WithoutDashes(s))
  {
    if s != "" {
      DashesOut(s[..|s| - 1]);
    }
  }

  lemma Unbraced(s: string)
    requires s != "" && !IsBrace(s[0]) && !IsBrace(s[|s| - 1])
    ensures TrimBracesRight(TrimBracesLeft(s)) == s
    ensures TrimBracesRight(TrimBracesLeft("{" + s + "}")) == s
  {
    var braced := "{" + s + "}";
    assert braced[1..] == s + "}";
    assert TrimBracesLeft(s + "}") == s + "}";
    assert (s + "}")[..|s|] == s;
  }

  /** A UUID may have hyphens anywhere, digits of either case, braces and white space around it: it is read as
      its digits. */
  lemma UuidAccepted(left: string, s: string, right: string)
    requires AllSpaces(left) && AllSpaces(right) && HexDigitOrDash(s) && |Nibbles(s)| == 32
    ensures CanonicalUuid(left + s + right).Some?
    ensures CanonicalUuid(left + ("{" + s + "}") + right) == CanonicalUuid(left + s + right)
    ensures Nibbles(CanonicalUuid(left + s + right).value) == Nibbles(s)
  {
    assert s != "" && !IsBrace(s[0]) && !IsBrace(s[|s| - 1]);
    TrimSpaceDrops(left, s, right);
    TrimSpaceDrops(left, "{" + s + "}", right);
    Unbraced(s);
    assert HexOrDash(ToLower(s));
    DashesOut(ToLower(s));
    NibblesOfLower(s);
    NibblesWithoutDashes(ToLower(s));
    LowerHexNibbles(WithoutDashes(ToLower(s)));
    CanonicalUuidDenotes(left + s + right);
    NibblesOfTrimmed(left + s + right);
  }

  // -------------------------------------------------------------------------------- type names

  /** The names PostgreSQL has for the type whose values a family stands for. */
  predicate NameOf(name: string, family: Family) {
    match family
    case Integer(bytes, true) =>
      if bytes == 2 then name in ["int2", "smallint", "smallserial", "serial2"]
      else if bytes == 4 then name in ["int4", "int", "integer", "serial", "serial4"]
      else bytes == 8 && name in ["int8", "bigint", "bigserial", "serial8"]
    case Integer(bytes, false) => bytes == 4 && name == "oid"
    case Numeric => name in ["numeric", "decimal"]
    case Boolean => name in ["bool", "boolean"]
    case Uuid => name == "uuid"
    case Verbatim => name in ["text", "varchar", "character varying"]
    case Name => name == "name"
    case Padded => name in ["bpchar", "char", "character"]
    case _ => false
  }

  lemma KnownName(name: string, family: Family)
    requires NameOf(name, family)
    ensures FamilyOfKey(name) == family
  {
    match family {
      case Integer(bytes, signed) =>
      case Numeric =>
      case Boolean =>
      case Verbatim =>
      case Padded =>
      case _ =>
    }
  }

  /** Every name of a type stands for it, with or without the schema and whatever the modifiers. */
  lemma TypeNamesAgree(name: string, family: Family, modifiers: string)
    requires NameOf(name, family) && PlainName(name) && Modifiers(modifiers)
    ensures FamilyOf(name + modifiers) == family
    ensures FamilyOf("pg_catalog." + (name + modifiers)) == family
  {
    TypeKeyIgnores(name, modifiers);
    KnownName(name, family);
  }
}
