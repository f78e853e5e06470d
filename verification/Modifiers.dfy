/** What becomes of a key value on its way into PostgreSQL: numeric(p, s) rounds, varchar(n) and char(n) cut, a
    name is cut to 63 bytes, and an oid wraps around if it has a minus sign and is octal if it starts with a zero.
    The router looks at none of this. */
module Modifiers {
  import opened Text
  import opened Decimal
  import opened Scalar
  import opened Rounding
  import opened Literals

  // ----------------------------------------------------------------------------------- lengths

  predicate Continuation(c: char) {
    0x80 <= c as int < 0xC0
  }

  /** UTF-8 characters, counted by their first bytes. */
  function CharCount(s: string): nat {
    if s == "" then 0 else CharCount(s[..|s| - 1]) + if Continuation(s[|s| - 1]) then 0 else 1
  }

  function DropChar(s: string): (r: string)
    requires s != ""
    ensures r <= s && |r| < |s|
  {
    if |s| > 1 && Continuation(s[|s| - 1]) then DropChar(s[..|s| - 1]) else s[..|s| - 1]
  }

  /** Names are measured in bytes, other texts in characters. */
  function Length(s: string, family: Family): nat {
    if family.Name? then |s| else CharCount(s)
  }

  function Clipped(s: string, family: Family, n: nat): (r: string)
    ensures r <= s && Length(r, family) <= n
    ensures Length(s, family) <= n ==> r == s
    decreases |s|
  {
    if Length(s, family) <= n then s else Clipped(DropChar(s), family, n)
  }

  lemma {:induction false} LengthOfPrefix(r: string, s: string, family: Family)
    requires r <= s
    ensures Length(r, family) <= Length(s, family)
    decreases |s|
  {
    if |r| < |s| {
      LengthOfPrefix(r, s[..|s| - 1], family);
    } else {
      assert r == s;
    }
  }

  lemma {:induction false} TrimBlanksPrefix(s: string)
    ensures TrimBlanks(s) <= s
  {
    if s != "" && s[|s| - 1] == ' ' {
      TrimBlanksPrefix(s[..|s| - 1]);
    }
  }

  // ---------------------------------------------------------------------------------- coercion

  predicate IsText(family: Family) {
    family.Verbatim? || family.Padded? || family.Name?
  }

  /** The values a family's columns hold. */
  predicate OfFamily(k: KeyValue, family: Family) {
    match family
    case Integer(_, _) => k.Whole?
    case Numeric => k.Number?
    case Boolean => k.Flag?
    case Uuid => k.Digits?
    case Padded => k.Characters? && TrimBlanks(k.s) == k.s
    case _ => k.Characters?
  }

  function AtLeastZero(n: int): nat {
    if n < 0 then 0 else n
  }

  /** The limit an explicit cast's modifiers set: digits after the point, or a length. */
  function LimitOf(family: Family, modifiers: seq<int>): Option<int> {
    if family.Numeric? && |modifiers| == 2 then Some(modifiers[1])
    else if family.Numeric? && |modifiers| == 1 then Some(0)
    else if (family.Verbatim? || family.Padded?) && |modifiers| == 1 then Some(modifiers[0])
    else None
  }

  predicate Unsigned(family: Family) {
    family.Integer? && !family.signed
  }

  /** The limit that applies to every literal of a family. */
  function ReadLimit(family: Family): Option<int> {
    if family.Name? then Some(MaxNameBytes) else if Unsigned(family) then Some(0) else None
  }

  /** What is left of a value under a limit, where it is not refused. */
  function Coerced(k: KeyValue, family: Family, limit: Option<int>): KeyValue {
    if limit.None? then k
    else if family.Numeric? && k.Number? then Number(RoundAt(k.x, limit.value))
    else if Unsigned(family) && k.Whole? then Whole(if k.n < 0 then k.n % Span(family.bytes) else k.n)
    else if IsText(family) && k.Characters? then
      var cut := Clipped(k.s, family, AtLeastZero(limit.value));
      Characters(if family.Padded? then TrimBlanks(cut) else cut)
    else k
  }

  /** The value has no more digits after the point, or no more characters, than the limit; an unsigned one
      is not negative. */
  predicate Within(k: KeyValue, family: Family, limit: int) {
    if family.Numeric? then k.Number? ==> WholeAt(k.x, limit)
    else if Unsigned(family) then k.Whole? ==> k.n >= 0
    else if IsText(family) then k.Characters? ==> Length(k.s, family) <= AtLeastZero(limit)
    else true
  }

  /** A limit leaves a value alone exactly when the value keeps it, and what it leaves keeps it. */
  lemma CoercedKeeps(k: KeyValue, family: Family, limit: int)
    requires OfFamily(k, family)
    ensures var c := Coerced(k, family, Some(limit));
      OfFamily(c, family) && Within(c, family, limit) && (Within(k, family, limit) <==> c == k)
  {
    if family.Numeric? {
      RoundFixes(k.x, limit);
      RoundedIsWhole(k.x, limit);
    } else if family.Padded? {
      var cut := Clipped(k.s, family, AtLeastZero(limit));
      TrimBlanksPrefix(cut);
      LengthOfPrefix(TrimBlanks(cut), cut, family);
      TrimBlanksTwice(cut);
    }
  }

  /** A limit never makes a value break another one. */
  lemma CoercedAddsNothing(k: KeyValue, family: Family, limit: int, other: int)
    requires OfFamily(k, family) && Within(k, family, other)
    ensures Within(Coerced(k, family, Some(limit)), family, other)
  {
    if family.Numeric? {
      RoundAddsNone(k.x, limit, other);
    } else if IsText(family) {
      var cut := Clipped(k.s, family, AtLeastZero(limit));
      TrimBlanksPrefix(cut);
      LengthOfPrefix(cut, k.s, family);
      LengthOfPrefix(TrimBlanks(cut), cut, family);
    }
  }

  // ------------------------------------------------------------------------- what a caller sees

  /** A canonical key text keeps a limit: so many digits after the point, so many characters, no minus
      sign. */
  predicate FitsLimit(text: string, family: Family, limit: int) {
    if family.Numeric? then TextWholeAt(text, limit)
    else if Unsigned(family) then text == "" || text[0] != '-'
    else if IsText(family) then Length(text, family) <= AtLeastZero(limit)
    else true
  }

  /** The limit can be checked on the text. */
  lemma FitsIsWithin(text: string, family: Family, limit: int)
    requires CanonicalScalar(text, family) == Some(text)
    ensures FitsLimit(text, family, limit) <==> Within(Denotes(text, family), family, limit)
    ensures OfFamily(Denotes(text, family), family)
  {
    if family.Numeric? {
      AcceptedDigits(text);
      KeyKeptExactly(Parse(text).value, limit);
    } else if Unsigned(family) {
      MinusIsNegative(ParseInt(text).value);
    }
  }

  lemma MinusIsNegative(n: int)
    ensures FormatInt(n) != "" && (FormatInt(n)[0] == '-' <==> n < 0)
  {
    FormatNatReads(if n < 0 then -n else n);
  }

  // ---------------------------------------------------------------------- one text for one value

  /** What PostgreSQL reads an accepted quoted text as, if it does not refuse it. */
  function ReadAs(text: string, family: Family): KeyValue
    requires CanonicalScalar(text, family).Some?
  {
    Coerced(if Unsigned(family) && OctalLooking(text) then Whole(OctalValue(text)) else Denotes(text, family), family,
            ReadLimit(family))
  }

  /** PostgreSQL takes the text for decimal. */
  predicate DecimalOid(text: string, family: Family) {
    Unsigned(family) ==> !OctalLooking(text)
  }

  /** The canonical text is short enough for a name; an oid has no minus sign and is not octal. */
  predicate ReadFits(text: string, family: Family)
    requires CanonicalScalar(text, family).Some?
  {
    DecimalOid(text, family)
    && (ReadLimit(family).Some? ==> FitsLimit(CanonicalScalar(text, family).value, family, ReadLimit(family).value))
  }

  /** What is read in octal is another number. */
  lemma OctalIsAnother(text: string, family: Family)
    requires Unsigned(family) && CanonicalScalar(text, family).Some? && OctalLooking(text)
    ensures ReadAs(text, family).Whole? && ReadAs(text, family).n >= 0 && ReadAs(text, family) != Denotes(text, family)
    ensures Denotes(text, family) != Whole(0)
  {
    OctalDiffers(text);
    CoercedKeeps(Whole(OctalValue(text)), family, 0);
  }

  /** The router's reading is PostgreSQL's exactly when the text fits. */
  lemma ReadAsDenoted(text: string, family: Family)
    requires CanonicalScalar(text, family).Some?
    ensures ReadAs(text, family) == Denotes(text, family) <==> ReadFits(text, family)
  {
    CanonicalScalarFixed(text, family);
    FitsIsWithin(CanonicalScalar(text, family).value, family, if ReadLimit(family).Some? then ReadLimit(family).value else 0);
    if !DecimalOid(text, family) {
      OctalIsAnother(text, family);
    } else if ReadLimit(family).Some? {
      CoercedKeeps(Denotes(text, family), family, ReadLimit(family).value);
    }
  }

  /** Beside a text that fits, another text of the same value is given the same canonical text exactly when
      it fits too; and texts that fit get one canonical text exactly when PostgreSQL reads one value. */
  lemma OneTextPerValue(a: string, b: string, family: Family)
    requires CanonicalScalar(a, family).Some? && CanonicalScalar(b, family).Some? && ReadFits(b, family)
    ensures ReadAs(a, family) == ReadAs(b, family) ==>
      (CanonicalScalar(a, family) == CanonicalScalar(b, family) <==> ReadFits(a, family))
    ensures ReadFits(a, family) ==>
      (CanonicalScalar(a, family) == CanonicalScalar(b, family) <==> ReadAs(a, family) == ReadAs(b, family))
  {
    ReadAsDenoted(a, family);
    ReadAsDenoted(b, family);
    CanonicalScalarDecides(a, b, family);
  }

  /** One key value, one text, exactly when its spelling fits: through a literal or parameter (canonicalised
      twice), through a text or CSV field (once), and through a binary field. */
  lemma EveryPathAgrees(spelling: string, bytes: string, k: KeyValue, family: Family)
    requires SentAs(bytes, k, family) && CanonicalScalar(spelling, family).Some? && ReadAs(spelling, family) == k
    ensures var once := CanonicalScalar(spelling, family).value;
      && CanonicalScalar(once, family) == Some(once)
      && IsBytes(bytes) && DecodeBinaryKey(bytes, family).Some?
      && (CanonicalScalar(DecodeBinaryKey(bytes, family).value, family) == Some(once) <==> ReadFits(spelling, family))
  {
    CanonicalScalarFixed(spelling, family);
    SendDecodes(bytes, k, family);
    ReadAsDenoted(spelling, family);
    CanonicalScalarDecides(DecodeBinaryKey(bytes, family).value, spelling, family);
  }

  lemma IntegerText(n: int, bytes: nat, signed: bool)
    ensures CanonicalScalar(FormatInt(n), Integer(bytes, signed)) == Some(FormatInt(n))
    ensures Denotes(FormatInt(n), Integer(bytes, signed)) == Whole(n) && !OctalLooking(FormatInt(n))
  {
    FormatIntReads(n);
    FormatIntPlain(n);
  }

  /** An unsigned number and its spelling with a minus sign: PostgreSQL reads one value, the router makes two
      texts. */
  lemma MinusMakesTwoTexts(n: int, m: int, bytes: nat)
    requires 0 - Span(bytes) <= n < 0 && m == n + Span(bytes)
    ensures var family, a, b := Integer(bytes, false), FormatInt(n), FormatInt(m);
      && CanonicalScalar(a, family) == Some(a) && CanonicalScalar(b, family) == Some(b) && a != b
      && ReadAs(a, family) == Whole(m) == ReadAs(b, family)
  {
    IntegerText(n, bytes, false);
    IntegerText(m, bytes, false);
    WrapsOnce(n, Span(bytes));
  }

  lemma WrapsOnce(n: int, span: int)
    requires span > 0 && 0 - span <= n < 0
    ensures n % span == n + span
  {
  }
}
