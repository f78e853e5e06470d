/** canonicalScalar and decodeBinaryKey: one text per shard-key value, whatever its spelling. */
module Scalar {
  import opened Text
  import opened Decimal

  // ------------------------------------------------------------------------------ the types

  /** How the values of a key type are compared.  Floating-point types are not modelled. */
  datatype Family =
    | Untyped
    | Integer(bytes: nat, signed: bool)
    | Numeric
    | Boolean
    | Uuid
    | Verbatim
    | Padded
    | Name
    | Unknown

  function FirstParen(s: string, from: nat := 0): (i: nat)
    requires from <= |s|
    ensures from <= i <= |s|
    decreases |s| - from
  {
    if from == |s| || s[from] == '(' then from else FirstParen(s, from + 1)
  }

  /** The name a declared type is looked up by: no schema, no modifiers, lower case. */
  function TypeKey(dataType: string): string {
    var lower := ToLower(TrimSpace(dataType));
    var name := if "pg_catalog." <= lower then lower[11..] else lower;
    var paren := FirstParen(name);
    if paren < |name| then TrimSpace(name[..paren]) else name
  }

  function FamilyOfKey(key: string): Family {
    if key in ["int2", "smallint", "smallserial", "serial2"] then Integer(2, true)
    else if key in ["int4", "int", "integer", "serial", "serial4"] then Integer(4, true)
    else if key in ["int8", "bigint", "bigserial", "serial8"] then Integer(8, true)
    else if key == "oid" then Integer(4, false)
    else if key in ["numeric", "decimal"] then Numeric
    else if key in ["bool", "boolean"] then Boolean
    else if key == "uuid" then Uuid
    else if key in ["text", "varchar", "character varying"] then Verbatim
    else if key == "name" then Name
    else if key in ["bpchar", "char", "character"] then Padded
    else Unknown
  }

  function FamilyOf(dataType: string): Family {
    if dataType == "" then Untyped else FamilyOfKey(TypeKey(dataType))
  }

  /** A type name as the catalog gives it: lower case, no white space around it, no schema, no modifiers. */
  predicate PlainName(name: string) {
    && name != "" && Tight(name) && ToLower(name) == name && !("pg_catalog." <= name)
    && forall i :: 0 <= i < |name| ==> name[i] != '('
  }

  lemma {:induction false} ParenAfter(name: string, rest: string, from: nat)
    requires from <= |name| && (forall i :: 0 <= i < |name| ==> name[i] != '(') && (rest == "" || rest[0] == '(')
    ensures FirstParen(name + rest, from) == |name|
    decreases |name| - from
  {
    if from < |name| {
      ParenAfter(name, rest, from + 1);
    }
  }

  predicate Modifiers(modifiers: string) {
    (modifiers == "" || (modifiers[0] == '(' && modifiers[|modifiers| - 1] == ')')) && ToLower(modifiers) == modifiers
  }

  /** What is left of a lower-case name without its schema. */
  lemma NameOnly(name: string, modifiers: string)
    requires PlainName(name) && Modifiers(modifiers)
    ensures var full := name + modifiers;
      var paren := FirstParen(full);
      (if paren < |full| then TrimSpace(full[..paren]) else full) == name
  {
    ParenAfter(name, modifiers, 0);
    TightIsTrimmed(name);
    assert (name + modifiers)[..|name|] == name;
  }

  lemma LowerAndTight(prefix: string, name: string, modifiers: string)
    requires PlainName(name) && Modifiers(modifiers) && (prefix == "" || (!IsSpace(prefix[0]) && ToLower(prefix) == prefix))
    ensures ToLower(TrimSpace(prefix + (name + modifiers))) == prefix + (name + modifiers)
  {
    LowerConcat(name, modifiers);
    LowerConcat(prefix, name + modifiers);
    TightIsTrimmed(prefix + (name + modifiers));
  }

  /** The schema and the modifiers of a type name do not matter. */
  lemma TypeKeyIgnores(name: string, modifiers: string)
    requires PlainName(name) && Modifiers(modifiers)
    ensures TypeKey(name + modifiers) == name
    ensures TypeKey("pg_catalog." + (name + modifiers)) == name
  {
    UnqualifiedKey(name, modifiers);
    QualifiedKey(name, modifiers);
  }

  lemma UnqualifiedKey(name: string, modifiers: string)
    requires PlainName(name) && Modifiers(modifiers)
    ensures TypeKey(name + modifiers) == name
  {
    assert "" + (name + modifiers) == name + modifiers;
    LowerAndTight("", name, modifiers);
    NotQualified(name, modifiers);
    NameOnly(name, modifiers);
  }

  lemma QualifiedKey(name: string, modifiers: string)
    requires PlainName(name) && Modifiers(modifiers)
    ensures TypeKey("pg_catalog." + (name + modifiers)) == name
  {
    var full, prefix := name + modifiers, "pg_catalog.";
    assert ToLower(prefix) == prefix;
    LowerAndTight(prefix, name, modifiers);
    assert (prefix + full)[11..] == full;
    NameOnly(name, modifiers);
  }

  lemma LowerConcat(a: string, b: string)
    ensures ToLower(a + b) == ToLower(a) + ToLower(b)
  {
  }

  /** Appending modifiers does not turn a plain name into a qualified one. */
  lemma NotQualified(name: string, modifiers: string)
    requires PlainName(name) && (modifiers == "" || modifiers[0] == '(')
    ensures !("pg_catalog." <= name + modifiers)
  {
    var full, prefix := name + modifiers, "pg_catalog.";
    if |name| >= 11 {
      assert full[..11] == name[..11];
    } else if modifiers != "" && |full| >= 11 {
      assert full[|name|] == '(' && prefix[|name|] != '(';
    }
  }

  // ------------------------------------------------------------------------------ integers

  function DigitChar(d: nat): (c: char)
    requires d < 10
    ensures IsDigit(c) && Digit(c) == d
  {
    '0' + (d as char)
  }

  function FormatNat(n: nat): string {
    if n < 10 then [DigitChar(n)] else FormatNat(n / 10) + [DigitChar(n % 10)]
  }

  function FormatInt(n: int): string {
    if n < 0 then "-" + FormatNat(-n) else FormatNat(n)
  }

  /** An optionally signed digit string of any length, with white space around it. */
  function ParseInt(value: string): Option<int> {
    var v := TrimSpace(value);
    var digits := AfterSign(v);
    if digits == "" || !AllDigits(digits) then None else Some(SignedNum(LeadingSign(v), digits))
  }

  lemma {:induction false} FormatNatReads(n: nat)
    ensures FormatNat(n) != "" && AllDigits(FormatNat(n)) && Num(FormatNat(n)) == n
  {
    if n < 10 {
      assert FormatNat(n)[..0] == "";
    } else {
      FormatNatReads(n / 10);
      assert FormatNat(n)[..|FormatNat(n)| - 1] == FormatNat(n / 10);
    }
  }

  /** A formatted integer is a sign and digits. */
  lemma FormatIntSpelled(n: int)
    ensures var text := FormatInt(n);
      && TrimSpace(text) == text && LeadingSign(text) == (if n < 0 then Minus else NoSign)
      && AfterSign(text) == FormatNat(if n < 0 then -n else n)
  {
    var sign := if n < 0 then Minus else NoSign;
    var digits := FormatNat(if n < 0 then -n else n);
    FormatNatReads(if n < 0 then -n else n);
    assert FormatInt(n) == PrintSign(sign) + digits by {
      assert "" + digits == digits;
    }
    SignReadsBack(sign, digits);
    TightIsTrimmed(FormatInt(n));
  }

  lemma FormatIntReads(n: int)
    ensures ParseInt(FormatInt(n)) == Some(n)
  {
    FormatIntSpelled(n);
    FormatNatReads(if n < 0 then -n else n);
  }

  // ------------------------------------------------------------------------------ booleans

  function Truth(value: string): Option<bool> {
    var word := ToLower(TrimSpace(value));
    if word in ["true", "t", "yes", "y", "on", "1"] then Some(true)
    else if word in ["false", "f", "no", "n", "off", "0"] then Some(false)
    else None
  }

  function FormatBool(b: bool): string {
    if b then "true" else "false"
  }

  lemma FormatBoolReads(b: bool)
    ensures Truth(FormatBool(b)) == Some(b)
  {
    var word := FormatBool(b);
    TightIsTrimmed(word);
    assert ToLower(word) == word;
  }

  // --------------------------------------------------------------------------------- UUIDs

  predicate IsBrace(c: char) {
    c == '{' || c == '}'
  }

  function TrimBracesLeft(s: string): string {
    if s != "" && IsBrace(s[0]) then TrimBracesLeft(s[1..]) else s
  }

  function TrimBracesRight(s: string): string {
    if s != "" && IsBrace(s[|s| - 1]) then TrimBracesRight(s[..|s| - 1]) else s
  }

  function WithoutDashes(s: string): string {
    if s == "" then "" else
      WithoutDashes(s[..|s| - 1]) + (if s[|s| - 1] == '-' then "" else [s[|s| - 1]])
  }

  predicate LowerHex(s: string) {
    forall i :: 0 <= i < |s| ==> '0' <= s[i] <= '9' || 'a' <= s[i] <= 'f'
  }

  function Compact(value: string): string {
    WithoutDashes(ToLower(TrimBracesRight(TrimBracesLeft(TrimSpace(value)))))
  }

  function Hyphenated(h: string): string
    requires |h| == 32
  {
    h[0..8] + ("-" + (h[8..12] + ("-" + (h[12..16] + ("-" + (h[16..20] + ("-" + h[20..])))))))
  }

  function CanonicalUuid(value: string): Option<string> {
    var h := Compact(value);
    if |h| == 32 && LowerHex(h) then Some(Hyphenated(h)) else None
  }

  /** The value of a hexadecimal digit of either case. */
  function Nibble(c: char): Option<nat> {
    if '0' <= c <= '9' then Some(c as int - '0' as int)
    else if 'a' <= c <= 'f' then Some(c as int - 'a' as int + 10)
    else if 'A' <= c <= 'F' then Some(c as int - 'A' as int + 10)
    else None
  }

  /** The hexadecimal digits of a text, in order, everything else skipped: what a UUID is. */
  function Nibbles(s: string): seq<nat> {
    if s == "" then [] else
      Nibbles(s[..|s| - 1]) + (match Nibble(s[|s| - 1]) case None => [] case Some(d) => [d])
  }

  lemma {:induction false} NibblesConcat(a: string, b: string)
    ensures Nibbles(a + b) == Nibbles(a) + Nibbles(b)
  {
    if b == "" {
      assert a + b == a;
    } else {
      assert (a + b)[..|a + b| - 1] == a + b[..|b| - 1];
      NibblesConcat(a, b[..|b| - 1]);
    }
  }

  lemma {:induction false} NibblesNone(s: string)
    requires forall i :: 0 <= i < |s| ==> Nibble(s[i]).None?
    ensures Nibbles(s) == []
  {
    if s != "" {
      NibblesNone(s[..|s| - 1]);
    }
  }

  lemma NibblesOfTrimmed(value: string)
    ensures Nibbles(TrimSpace(value)) == Nibbles(value)
  {
    var left, right := TrimSpaceSplits(value);
    NibblesNone(left);
    NibblesNone(right);
    NibblesConcat(left + TrimSpace(value), right);
    NibblesConcat(left, TrimSpace(value));
  }

  lemma {:induction false} NibblesOfUnbraced(s: string)
    ensures Nibbles(TrimBracesLeft(s)) == Nibbles(s)
    ensures Nibbles(TrimBracesRight(s)) == Nibbles(s)
    decreases |s|
  {
    if s != "" && IsBrace(s[0]) {
      NibblesOfUnbraced(s[1..]);
      assert s == [s[0]] + s[1..];
      NibblesNone([s[0]]);
      NibblesConcat([s[0]], s[1..]);
    }
    if s != "" && IsBrace(s[|s| - 1]) {
      NibblesOfUnbraced(s[..|s| - 1]);
    }
  }

  lemma {:induction false} NibblesOfLower(s: string)
    ensures Nibbles(ToLower(s)) == Nibbles(s)
  {
    if s != "" {
      NibblesOfLower(s[..|s| - 1]);
      assert ToLower(s)[..|s| - 1] == ToLower(s[..|s| - 1]);
    }
  }

  lemma {:induction false} NibblesWithoutDashes(s: string)
    ensures Nibbles(WithoutDashes(s)) == Nibbles(s)
  {
    if s != "" {
      var last := s[|s| - 1];
      NibblesWithoutDashes(s[..|s| - 1]);
      NibblesConcat(WithoutDashes(s[..|s| - 1]), if last == '-' then "" else [last]);
      if last != '-' {
        assert [last][..0] == "";
      }
    }
  }

  lemma NibblesOfCompact(value: string)
    ensures Nibbles(Compact(value)) == Nibbles(value)
  {
    var a := TrimSpace(value);
    var b := TrimBracesLeft(a);
    var c := TrimBracesRight(b);
    NibblesOfTrimmed(value);
    NibblesOfUnbraced(a);
    NibblesOfUnbraced(b);
    NibblesOfLower(c);
    NibblesWithoutDashes(ToLower(c));
  }

  lemma LastNibble(a: string)
    requires LowerHex(a) && a != ""
    ensures Nibbles(a) == Nibbles(a[..|a| - 1]) + [Nibble(a[|a| - 1]).value] && LowerHex(a[..|a| - 1])
  {
    assert Nibble(a[|a| - 1]).Some?;
  }

  lemma SameLastNibble(a: string, b: string)
    requires LowerHex(a) && LowerHex(b) && a != "" && b != "" && Nibbles(a) == Nibbles(b)
    ensures Nibbles(a[..|a| - 1]) == Nibbles(b[..|b| - 1]) && a[|a| - 1] == b[|b| - 1]
  {
    LastNibble(a);
    LastNibble(b);
    var all := Nibbles(a);
    assert all[..|all| - 1] == Nibbles(a[..|a| - 1]) && all[..|all| - 1] == Nibbles(b[..|b| - 1]);
    assert all[|all| - 1] == Nibble(a[|a| - 1]).value == Nibble(b[|b| - 1]).value;
  }

  lemma {:induction false} NibblesInjective(a: string, b: string)
    requires LowerHex(a) && LowerHex(b) && Nibbles(a) == Nibbles(b)
    ensures a == b
  {
    if a != "" && b != "" {
      SameLastNibble(a, b);
      NibblesInjective(a[..|a| - 1], b[..|b| - 1]);
      assert a == a[..|a| - 1] + [a[|a| - 1]] && b == b[..|b| - 1] + [b[|b| - 1]];
    }
  }

  lemma {:induction false} WithoutDashesConcat(a: string, b: string)
    ensures WithoutDashes(a + b) == WithoutDashes(a) + WithoutDashes(b)
  {
    if b == "" {
      assert a + b == a;
    } else {
      assert (a + b)[..|a + b| - 1] == a + b[..|b| - 1];
      WithoutDashesConcat(a, b[..|b| - 1]);
    }
  }

  lemma {:induction false} WithoutDashesNone(s: string)
    requires LowerHex(s)
    ensures WithoutDashes(s) == s
  {
    if s != "" {
      WithoutDashesNone(s[..|s| - 1]);
    }
  }

  /** A hyphen after a hexadecimal part is dropped and the part kept. */
  lemma DashDropped(part: string, rest: string)
    requires LowerHex(part)
    ensures WithoutDashes(part + ("-" + rest)) == part + WithoutDashes(rest)
  {
    WithoutDashesConcat(part, "-" + rest);
    WithoutDashesConcat("-", rest);
    WithoutDashesNone(part);
    assert "-"[..0] == "" && WithoutDashes("-") == "";
  }

  lemma SlicesJoin(h: string, i: nat, j: nat)
    requires i <= j <= |h|
    ensures h[i..j] + h[j..] == h[i..] && h[0..] == h
  {
  }

  lemma LastGroups(h: string)
    requires |h| == 32 && LowerHex(h)
    ensures WithoutDashes(h[12..16] + ("-" + (h[16..20] + ("-" + h[20..])))) == h[12..]
  {
    var d := h[20..];
    var c := h[16..20] + ("-" + d);
    WithoutDashesNone(d);
    DashDropped(h[16..20], d);
    SlicesJoin(h, 16, 20);
    DashDropped(h[12..16], c);
    SlicesJoin(h, 12, 16);
  }

  lemma HyphenatedWithoutDashes(h: string)
    requires |h| == 32 && LowerHex(h)
    ensures WithoutDashes(Hyphenated(h)) == h
  {
    var b := h[12..16] + ("-" + (h[16..20] + ("-" + h[20..])));
    LastGroups(h);
    DashDropped(h[8..12], b);
    SlicesJoin(h, 8, 12);
    DashDropped(h[0..8], h[8..12] + ("-" + b));
    SlicesJoin(h, 0, 8);
  }

  predicate HexOrDash(s: string) {
    forall i :: 0 <= i < |s| ==> '0' <= s[i] <= '9' || 'a' <= s[i] <= 'f' || s[i] == '-'
  }

  lemma HyphenatedReads(h: string)
    requires |h| == 32 && LowerHex(h)
    ensures CanonicalUuid(Hyphenated(h)) == Some(Hyphenated(h))
  {
    var text := Hyphenated(h);
    assert HexOrDash(text) && text != "";
    TightIsTrimmed(text);
    assert ToLower(text) == text;
    HyphenatedWithoutDashes(h);
  }

  // --------------------------------------------------------------------------- blank padding

  function TrimBlanks(s: string): string {
    if s != "" && s[|s| - 1] == ' ' then TrimBlanks(s[..|s| - 1]) else s
  }

  function Blanks(n: nat): string {
    seq(n, _ => ' ')
  }

  function Pad(s: string, width: nat): string
    requires |s| <= width
  {
    s + Blanks(width - |s|)
  }

  lemma {:induction false} TrimBlanksIgnoresPadding(s: string, n: nat)
    ensures TrimBlanks(s + Blanks(n)) == TrimBlanks(s)
  {
    var padded := s + Blanks(n);
    if n == 0 {
      assert padded == s;
    } else {
      assert padded[..|padded| - 1] == s + Blanks(n - 1);
      TrimBlanksIgnoresPadding(s, n - 1);
    }
  }

  lemma {:induction false} TrimBlanksPads(s: string, width: nat)
    requires |s| <= width
    ensures |TrimBlanks(s)| <= width && Pad(TrimBlanks(s), width) == Pad(s, width)
  {
    if s != "" && s[|s| - 1] == ' ' {
      TrimBlanksPads(s[..|s| - 1], width);
      assert s == s[..|s| - 1] + " ";
    }
  }

  /** Texts lose their trailing blanks to the same text exactly when they are equal once padded. */
  lemma TrimBlanksDecides(a: string, b: string, width: nat)
    requires |a| <= width && |b| <= width
    ensures TrimBlanks(a) == TrimBlanks(b) <==> Pad(a, width) == Pad(b, width)
  {
    PadTrims(a, width);
    PadTrims(b, width);
    TrimBlanksPads(a, width);
    TrimBlanksPads(b, width);
  }

  lemma PadTrims(s: string, width: nat)
    requires |s| <= width
    ensures TrimBlanks(Pad(s, width)) == TrimBlanks(s)
  {
    TrimBlanksIgnoresPadding(s, width - |s|);
  }

  // ------------------------------------------------------------------------ canonical scalars

  function CanonicalInt(value: string): Option<string> {
    match ParseInt(value)
    case None => None
    case Some(n) => Some(FormatInt(n))
  }

  function CanonicalBool(value: string): Option<string> {
    match Truth(value)
    case None => None
    case Some(b) => Some(FormatBool(b))
  }

  /** canonicalScalar. */
  function CanonicalScalar(value: string, family: Family): Option<string> {
    match family
    case Untyped => Some(value)
    case Integer(_, _) => CanonicalInt(value)
    case Numeric => CanonicalDecimalOf(value)
    case Boolean => CanonicalBool(value)
    case Uuid => CanonicalUuid(value)
    case Verbatim => Some(value)
    case Padded => Some(TrimBlanks(value))
    case Name => Some(value)
    case Unknown => None
  }

  /** What PostgreSQL compares when it compares two keys of a family. */
  datatype KeyValue = Whole(n: int) | Number(x: real) | Flag(b: bool) | Digits(nibbles: seq<nat>) | Characters(s: string)

  /** The value an accepted spelling denotes. */
  function Denotes(value: string, family: Family): KeyValue
    requires CanonicalScalar(value, family).Some?
  {
    match family
    case Integer(_, _) => Whole(ParseInt(value).value)
    case Numeric => Number(Value(Parse(value).value))
    case Boolean => Flag(Truth(value).value)
    case Uuid => Digits(Nibbles(value))
    case Padded => Characters(TrimBlanks(value))
    case _ => Characters(value)
  }

  lemma CanonicalUuidDenotes(value: string)
    requires CanonicalUuid(value).Some?
    ensures CanonicalUuid(CanonicalUuid(value).value) == CanonicalUuid(value)
    ensures Nibbles(CanonicalUuid(value).value) == Nibbles(value)
  {
    var h := Compact(value);
    NibblesOfCompact(value);
    HyphenatedReads(h);
    HyphenatedWithoutDashes(h);
    NibblesWithoutDashes(Hyphenated(h));
  }

  lemma UuidDecides(a: string, b: string)
    requires CanonicalUuid(a).Some? && CanonicalUuid(b).Some?
    ensures CanonicalUuid(a) == CanonicalUuid(b) <==> Nibbles(a) == Nibbles(b)
  {
    CanonicalUuidDenotes(a);
    CanonicalUuidDenotes(b);
    if Nibbles(a) == Nibbles(b) {
      NibblesOfCompact(a);
      NibblesOfCompact(b);
      NibblesInjective(Compact(a), Compact(b));
    }
  }

  lemma TrimBlanksTwice(value: string)
    ensures TrimBlanks(TrimBlanks(value)) == TrimBlanks(value)
  {
  }

  /** The canonical text is a fixed point and denotes the same value. */
  lemma CanonicalScalarFixed(value: string, family: Family)
    requires CanonicalScalar(value, family).Some?
    ensures var text := CanonicalScalar(value, family).value;
      CanonicalScalar(text, family) == Some(text) && Denotes(text, family) == Denotes(value, family)
  {
    match family {
      case Integer(_, _) => FormatIntReads(ParseInt(value).value);
      case Numeric =>
        CanonicalIdempotent(value);
        AcceptedDigits(value);
        CanonicalDenotesSame(Parse(value).value);
      case Boolean => FormatBoolReads(Truth(value).value);
      case Uuid => CanonicalUuidDenotes(value);
      case Padded => TrimBlanksTwice(value);
      case _ =>
    }
  }

  /** Two accepted spellings get one text exactly when they denote one value. */
  lemma CanonicalScalarDecides(a: string, b: string, family: Family)
    requires CanonicalScalar(a, family).Some? && CanonicalScalar(b, family).Some?
    ensures CanonicalScalar(a, family) == CanonicalScalar(b, family) <==> Denotes(a, family) == Denotes(b, family)
  {
    match family {
      case Integer(_, _) =>
        FormatIntReads(ParseInt(a).value);
        FormatIntReads(ParseInt(b).value);
      case Numeric => CanonicalDecidesEquality(a, b);
      case Uuid => UuidDecides(a, b);
      case _ =>
    }
  }

  // ------------------------------------------------------------------------------ binary keys

  /** Big-endian value of a byte string. */
  function BigEndian(s: string): nat {
    if s == "" then 0 else 256 * BigEndian(s[..|s| - 1]) + s[|s| - 1] as int
  }

  /** One past the largest unsigned value of so many bytes. */
  function Span(bytes: nat): (span: nat)
    ensures span > 0
  {
    if bytes == 0 then 1 else 256 * Span(bytes - 1)
  }

  function ToSigned(u: nat, bytes: nat): int {
    if 2 * u >= Span(bytes) then u - Span(bytes) else u
  }

  function HexChar(d: nat): (c: char)
    requires d < 16
    ensures Nibble(c) == Some(d) && ('0' <= c <= '9' || 'a' <= c <= 'f')
  {
    if d < 10 then '0' + (d as char) else 'a' + ((d - 10) as char)
  }

  predicate IsBytes(s: string) {
    forall i :: 0 <= i < |s| ==> s[i] as int < 256
  }

  /** Two lower-case hexadecimal digits per byte. */
  function Hex(s: string): (h: string)
    requires IsBytes(s)
    ensures |h| == 2 * |s| && LowerHex(h)
  {
    if s == "" then "" else
      var b := s[|s| - 1] as int;
      Hex(s[..|s| - 1]) + [HexChar(b / 16), HexChar(b % 16)]
  }

  /** decodeBinaryKey. */
  function DecodeBinaryKey(value: string, family: Family): Option<string>
    requires IsBytes(value)
  {
    match family
    case Integer(bytes, signed) =>
      if |value| != bytes then None
      else Some(FormatInt(if signed then ToSigned(BigEndian(value), bytes) else BigEndian(value)))
    case Boolean =>
      if |value| != 1 || value[0] as int > 1 then None else Some(FormatBool(value[0] as int == 1))
    case Uuid => if |value| != 16 then None else Some(Hyphenated(Hex(value)))
    case Verbatim => if ValidUtf8(value) then Some(value) else None
    case Padded => if ValidUtf8(value) then Some(value) else None
    case Name => if ValidUtf8(value) then Some(value) else None
    case _ => None
  }

  // What the server's binary send functions produce.

  function SendUnsigned(u: nat, bytes: nat): (s: string)
    requires u < Span(bytes)
    ensures |s| == bytes && IsBytes(s)
  {
    if bytes == 0 then "" else SendUnsigned(u / 256, bytes - 1) + [(u % 256) as char]
  }

  predicate InRange(n: int, bytes: nat, signed: bool) {
    if signed then 0 - Span(bytes) <= 2 * n < Span(bytes) else 0 <= n < Span(bytes)
  }

  function SendInt(n: int, bytes: nat): (s: string)
    requires InRange(n, bytes, true) || InRange(n, bytes, false)
    ensures |s| == bytes && IsBytes(s)
  {
    SendUnsigned(if n < 0 then n + Span(bytes) else n, bytes)
  }

  /** Pairs of hexadecimal digits packed into bytes. */
  function Pack(nibbles: seq<nat>): (s: string)
    requires |nibbles| % 2 == 0 && forall i :: 0 <= i < |nibbles| ==> nibbles[i] < 16
    ensures 2 * |s| == |nibbles| && IsBytes(s)
  {
    var n := |nibbles|;
    if n == 0 then "" else Pack(nibbles[..n - 2]) + [(16 * nibbles[n - 2] + nibbles[n - 1]) as char]
  }

  lemma {:induction false} SentUnsigned(u: nat, bytes: nat)
    requires u < Span(bytes)
    ensures BigEndian(SendUnsigned(u, bytes)) == u
  {
    if bytes > 0 {
      var s := SendUnsigned(u, bytes);
      SentUnsigned(u / 256, bytes - 1);
      assert s[..|s| - 1] == SendUnsigned(u / 256, bytes - 1);
    }
  }

  lemma SentInt(n: int, bytes: nat, signed: bool)
    requires InRange(n, bytes, signed)
    ensures DecodeBinaryKey(SendInt(n, bytes), Integer(bytes, signed)) == Some(FormatInt(n))
  {
    SentUnsigned(if n < 0 then n + Span(bytes) else n, bytes);
  }

  lemma NibblesOfPair(high: char, low: char)
    requires Nibble(high).Some? && Nibble(low).Some?
    ensures Nibbles([high, low]) == [Nibble(high).value, Nibble(low).value]
  {
    assert [high, low][..1] == [high] && [high][..0] == "";
    assert Nibbles([high]) == [Nibble(high).value];
  }

  lemma {:induction false} HexNibbles(s: string)
    requires IsBytes(s)
    ensures |Nibbles(Hex(s))| == 2 * |s|
    ensures forall i :: 0 <= i < 2 * |s| ==> Nibbles(Hex(s))[i] < 16
    ensures s != "" ==> Nibbles(Hex(s)) == Nibbles(Hex(s[..|s| - 1])) + [s[|s| - 1] as int / 16, s[|s| - 1] as int % 16]
  {
    if s != "" {
      var init, b := s[..|s| - 1], s[|s| - 1] as int;
      var high, low := HexChar(b / 16), HexChar(b % 16);
      HexNibbles(init);
      NibblesConcat(Hex(init), [high, low]);
      NibblesOfPair(high, low);
    }
  }

  lemma {:induction false} NibblesOfHex(s: string)
    requires IsBytes(s)
    ensures |Nibbles(Hex(s))| == 2 * |s|
    ensures forall i :: 0 <= i < 2 * |s| ==> Nibbles(Hex(s))[i] < 16
    ensures Pack(Nibbles(Hex(s))) == s
  {
    HexNibbles(s);
    if s != "" {
      var init := s[..|s| - 1];
      NibblesOfHex(init);
      PackByte(Nibbles(Hex(init)), s, Nibbles(Hex(s)));
    }
  }

  predicate Packable(nibbles: seq<nat>) {
    |nibbles| % 2 == 0 && forall i :: 0 <= i < |nibbles| ==> nibbles[i] < 16
  }

  lemma LastTwo(nibbles: seq<nat>, high: nat, low: nat)
    requires Packable(nibbles) && high < 16 && low < 16
    ensures var all := nibbles + [high, low];
      && |all| >= 2 && Packable(all)
      && all[..|all| - 2] == nibbles && all[|all| - 2] == high && all[|all| - 1] == low
  {
  }

  lemma PackTwo(nibbles: seq<nat>, high: nat, low: nat)
    requires Packable(nibbles) && high < 16 && low < 16
    ensures Packable(nibbles + [high, low])
    ensures Pack(nibbles + [high, low]) == Pack(nibbles) + [(16 * high + low) as char]
  {
    LastTwo(nibbles, high, low);
    PackUnfolds(nibbles + [high, low], nibbles, high, low);
  }

  lemma PackUnfolds(all: seq<nat>, nibbles: seq<nat>, high: nat, low: nat)
    requires |all| >= 2 && Packable(all) && all[..|all| - 2] == nibbles
    requires all[|all| - 2] == high && all[|all| - 1] == low
    ensures Packable(nibbles) && Pack(all) == Pack(nibbles) + [(16 * high + low) as char]
  {
  }

  lemma PackByte(nibbles: seq<nat>, s: string, all: seq<nat>)
    requires |nibbles| % 2 == 0 && (forall i :: 0 <= i < |nibbles| ==> nibbles[i] < 16)
    requires IsBytes(s) && s != "" && Pack(nibbles) == s[..|s| - 1]
    requires all == nibbles + [s[|s| - 1] as int / 16, s[|s| - 1] as int % 16]
    ensures (forall i :: 0 <= i < |all| ==> all[i] < 16) && Pack(all) == s
  {
    var b := s[|s| - 1] as int;
    assert 16 * (b / 16) + b % 16 == b;
    PackTwo(nibbles, b / 16, b % 16);
    assert s == s[..|s| - 1] + [b as char];
  }

  lemma EqualUpToLastTwo(a: seq<nat>, b: seq<nat>)
    requires |a| == |b| >= 2 && a[..|a| - 2] == b[..|b| - 2]
    requires a[|a| - 2] == b[|b| - 2] && a[|a| - 1] == b[|b| - 1]
    ensures a == b
  {
    assert a == a[..|a| - 2] + [a[|a| - 2], a[|a| - 1]];
    assert b == b[..|b| - 2] + [b[|b| - 2], b[|b| - 1]];
  }

  lemma LastByte(a: seq<nat>)
    requires |a| >= 2 && |a| % 2 == 0 && forall i :: 0 <= i < |a| ==> a[i] < 16
    ensures var s := Pack(a);
      s != "" && s[..|s| - 1] == Pack(a[..|a| - 2]) && s[|s| - 1] as int == 16 * a[|a| - 2] + a[|a| - 1]
  {
    assert Pack(a) == Pack(a[..|a| - 2]) + [(16 * a[|a| - 2] + a[|a| - 1]) as char];
  }

  lemma {:induction false} PackInjective(a: seq<nat>, b: seq<nat>)
    requires |a| == |b| && |a| % 2 == 0
    requires forall i :: 0 <= i < |a| ==> a[i] < 16 && b[i] < 16
    requires Pack(a) == Pack(b)
    ensures a == b
  {
    var n := |a|;
    if n > 0 {
      LastByte(a);
      LastByte(b);
      PackInjective(a[..n - 2], b[..n - 2]);
      EqualUpToLastTwo(a, b);
    }
  }

  /** A UUID's sixteen bytes decode to the hyphenated form of its digits. */
  lemma SentUuid(nibbles: seq<nat>)
    requires |nibbles| == 32 && forall i :: 0 <= i < |nibbles| ==> nibbles[i] < 16
    ensures DecodeBinaryKey(Pack(nibbles), Uuid) == Some(Hyphenated(Hex(Pack(nibbles))))
    ensures Nibbles(Hyphenated(Hex(Pack(nibbles)))) == nibbles
  {
    var s := Pack(nibbles);
    NibblesOfHex(s);
    PackInjective(Nibbles(Hex(s)), nibbles);
    HyphenatedWithoutDashes(Hex(s));
    NibblesWithoutDashes(Hyphenated(Hex(s)));
  }

  /** PostgreSQL's names are cut to NAMEDATALEN - 1 bytes. */
  const MaxNameBytes := 63

  /** The values a binary column of the family can hold. */
  predicate Sendable(k: KeyValue, family: Family) {
    match family
    case Integer(bytes, signed) => k.Whole? && InRange(k.n, bytes, signed)
    case Boolean => k.Flag?
    case Uuid => k.Digits? && |k.nibbles| == 32 && forall i :: 0 <= i < |k.nibbles| ==> k.nibbles[i] < 16
    case Verbatim => k.Characters? && IsBytes(k.s) && ValidUtf8(k.s)
    case Padded => k.Characters? && IsBytes(k.s) && ValidUtf8(k.s) && TrimBlanks(k.s) == k.s
    case Name => k.Characters? && IsBytes(k.s) && ValidUtf8(k.s) && |k.s| <= MaxNameBytes
    case _ => false
  }

  /** A char(n) field comes padded with blanks. */
  function Send(k: KeyValue, family: Family, blanks: nat): (s: string)
    requires Sendable(k, family)
    ensures IsBytes(s)
  {
    match family
    case Integer(bytes, signed) => SendInt(k.n, bytes)
    case Boolean => if k.b then [1 as char] else [0 as char]
    case Uuid => Pack(k.nibbles)
    case Verbatim => k.s
    case Padded => k.s + Blanks(blanks)
    case Name => k.s
    case _ => ""
  }

  /** The bytes a binary field of the family holds for the value. */
  ghost predicate SentAs(bytes: string, k: KeyValue, family: Family) {
    Sendable(k, family) && exists blanks: nat :: bytes == Send(k, family, blanks)
  }

  lemma SendDecodes(bytes: string, k: KeyValue, family: Family)
    requires SentAs(bytes, k, family)
    ensures IsBytes(bytes) && DecodeBinaryKey(bytes, family).Some?
    ensures var text := DecodeBinaryKey(bytes, family).value;
      CanonicalScalar(text, family).Some? && Denotes(text, family) == k
  {
    var blanks: nat :| bytes == Send(k, family, blanks);
    match family {
      case Integer(bytes, signed) =>
        SentInt(k.n, bytes, signed);
        FormatIntReads(k.n);
      case Boolean => FormatBoolReads(k.b);
      case Uuid =>
        SentUuid(k.nibbles);
        HyphenatedReads(Hex(Pack(k.nibbles)));
      case Padded =>
        AsciiBehind(k.s, Blanks(blanks), 0);
        TrimBlanksIgnoresPadding(k.s, blanks);
      case _ =>
    }
  }
}
