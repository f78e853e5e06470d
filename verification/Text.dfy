/** Byte strings and the library routines the Proxy applies to key values.

    A string is a sequence of bytes, one char per byte.  White space is ASCII white space. */
module Text {

  datatype Option<+T> = None | Some(value: T)

  predicate IsSpace(c: char) {
    c == ' ' || c == '\t' || c == '\n' || c == '\r' || c == '\U{0B}' || c == '\U{0C}'
  }

  predicate AllSpaces(s: string) {
    forall i :: 0 <= i < |s| ==> IsSpace(s[i])
  }

  function TrimLeft(s: string): string {
    if s != "" && IsSpace(s[0]) then TrimLeft(s[1..]) else s
  }

  function TrimRight(s: string): string {
    if s != "" && IsSpace(s[|s| - 1]) then TrimRight(s[..|s| - 1]) else s
  }

  function TrimSpace(s: string): string {
    TrimRight(TrimLeft(s))
  }

  /** Nothing left to trim. */
  predicate Tight(s: string) {
    s == "" || (!IsSpace(s[0]) && !IsSpace(s[|s| - 1]))
  }

  lemma {:induction false} TrimLeftDrops(left: string, s: string)
    requires AllSpaces(left) && (s == "" || !IsSpace(s[0]))
    ensures TrimLeft(left + s) == s
  {
    if left == "" {
      assert left + s == s;
    } else {
      assert (left + s)[1..] == left[1..] + s;
      TrimLeftDrops(left[1..], s);
    }
  }

  lemma {:induction false} TrimRightDrops(s: string, right: string)
    requires AllSpaces(right) && (s == "" || !IsSpace(s[|s| - 1]))
    ensures TrimRight(s + right) == s
  {
    if right == "" {
      assert s + right == s;
    } else {
      assert (s + right)[..|s + right| - 1] == s + right[..|right| - 1];
      TrimRightDrops(s, right[..|right| - 1]);
    }
  }

  /** Trimming removes exactly the surrounding white space. */
  lemma TrimSpaceDrops(left: string, s: string, right: string)
    requires AllSpaces(left) && AllSpaces(right) && Tight(s) && s != ""
    ensures TrimSpace(left + s + right) == s
  {
    assert left + s + right == left + (s + right);
    TrimLeftDrops(left, s + right);
    TrimRightDrops(s, right);
  }

  lemma {:induction false} TrimLeftSplits(s: string) returns (left: string)
    ensures AllSpaces(left) && s == left + TrimLeft(s)
    ensures TrimLeft(s) == "" || !IsSpace(TrimLeft(s)[0])
  {
    if s != "" && IsSpace(s[0]) {
      left := TrimLeftSplits(s[1..]);
      left := [s[0]] + left;
    } else {
      left := "";
    }
  }

  lemma {:induction false} TrimRightSplits(s: string) returns (right: string)
    ensures AllSpaces(right) && s == TrimRight(s) + right
    ensures TrimRight(s) == "" || !IsSpace(TrimRight(s)[|TrimRight(s)| - 1])
  {
    if s != "" && IsSpace(s[|s| - 1]) {
      right := TrimRightSplits(s[..|s| - 1]);
      right := right + [s[|s| - 1]];
    } else {
      right := "";
    }
  }

  lemma TrimSpaceSplits(s: string) returns (left: string, right: string)
    ensures AllSpaces(left) && AllSpaces(right) && s == left + TrimSpace(s) + right
    ensures Tight(TrimSpace(s))
  {
    left := TrimLeftSplits(s);
    right := TrimRightSplits(TrimLeft(s));
    var t := TrimSpace(s);
    if t != "" {
      assert TrimLeft(s)[0] == t[0];
    }
    assert s == left + t + right;
  }

  lemma TightIsTrimmed(s: string)
    requires Tight(s)
    ensures TrimSpace(s) == s
  {
  }

  function ToLower(s: string): (t: string)
    ensures |t| == |s|
  {
    seq(|s|, i requires 0 <= i < |s| => if 'A' <= s[i] <= 'Z' then s[i] + ' ' else s[i])
  }

  /** A continuation byte, at least lo and at most hi. */
  predicate Continues(s: string, i: nat, lo: int, hi: int) {
    i < |s| && lo <= s[i] as int <= hi
  }

  /** The length of the well-formed UTF-8 character at i, 0 if there is none. */
  function Utf8Length(s: string, i: nat): (n: nat)
    requires i < |s|
    ensures i + n <= |s|
  {
    var c := s[i] as int;
    if c < 0x80 then 1
    else if 0xC2 <= c <= 0xDF then
      if Continues(s, i + 1, 0x80, 0xBF) then 2 else 0
    else if 0xE0 <= c <= 0xEF then
      var lo, hi := if c == 0xE0 then 0xA0 else 0x80, if c == 0xED then 0x9F else 0xBF;
      if Continues(s, i + 1, lo, hi) && Continues(s, i + 2, 0x80, 0xBF) then 3 else 0
    else if 0xF0 <= c <= 0xF4 then
      var lo, hi := if c == 0xF0 then 0x90 else 0x80, if c == 0xF4 then 0x8F else 0xBF;
      if Continues(s, i + 1, lo, hi) && Continues(s, i + 2, 0x80, 0xBF) && Continues(s, i + 3, 0x80, 0xBF) then 4 else 0
    else 0
  }

  predicate ValidUtf8(s: string, from: nat := 0)
    decreases |s| - from
  {
    from >= |s| || (Utf8Length(s, from) > 0 && ValidUtf8(s, from + Utf8Length(s, from)))
  }

  /** ASCII characters behind well-formed UTF-8 leave it well formed. */
  lemma {:induction false} AsciiBehind(s: string, t: string, from: nat)
    requires from <= |s| && ValidUtf8(s, from) && forall i :: 0 <= i < |t| ==> t[i] as int < 0x80
    ensures ValidUtf8(s + t, from)
    decreases |s| - from
  {
    if from == |s| {
      AsciiTail(s, t, from);
    } else {
      AsciiBehind(s, t, from + Utf8Length(s, from));
    }
  }

  lemma {:induction false} AsciiTail(s: string, t: string, from: nat)
    requires |s| <= from <= |s + t| && forall i :: 0 <= i < |t| ==> t[i] as int < 0x80
    ensures ValidUtf8(s + t, from)
    decreases |s + t| - from
  {
    if from < |s + t| {
      AsciiTail(s, t, from + 1);
    }
  }

  // ------------------------------------------------------------------------ decimal digits

  predicate IsDigit(c: char) {
    '0' <= c <= '9'
  }

  predicate AllDigits(s: string) {
    forall i :: 0 <= i < |s| ==> IsDigit(s[i])
  }

  function Digit(c: char): (d: nat)
    ensures IsDigit(c) ==> d < 10
  {
    if IsDigit(c) then (c as int) - ('0' as int) else 0
  }

  /** The number a digit string spells. */
  function Num(s: string): nat {
    if s == "" then 0 else 10 * Num(s[..|s| - 1]) + Digit(s[|s| - 1])
  }

  function TrimZeros(s: string): string {
    if s != "" && s[0] == '0' then TrimZeros(s[1..]) else s
  }

  function Zeros(n: nat): (z: string)
    ensures |z| == n && AllDigits(z) && forall i :: 0 <= i < n ==> z[i] == '0'
  {
    seq(n, _ => '0')
  }

  /** n followed by k decimal zeros. */
  function Shifted(n: nat, k: nat): nat {
    if k == 0 then n else 10 * Shifted(n, k - 1)
  }

  lemma {:induction false} NumIgnoresZero(s: string)
    ensures Num(['0'] + s) == Num(s)
  {
    if s == "" {
      assert ['0'] + s == "0" && "0"[..0] == "";
    } else {
      assert (['0'] + s)[..|s|] == ['0'] + s[..|s| - 1];
      NumIgnoresZero(s[..|s| - 1]);
    }
  }

  lemma {:induction false} NumIgnoresZeros(n: nat, s: string)
    ensures Num(Zeros(n) + s) == Num(s)
  {
    if n == 0 {
      assert Zeros(n) + s == s;
    } else {
      assert Zeros(n) + s == ['0'] + (Zeros(n - 1) + s);
      NumIgnoresZero(Zeros(n - 1) + s);
      NumIgnoresZeros(n - 1, s);
    }
  }

  lemma {:induction false} NumAppendZeros(s: string, n: nat)
    ensures Num(s + Zeros(n)) == Shifted(Num(s), n)
  {
    if n == 0 {
      assert s + Zeros(n) == s;
    } else {
      assert (s + Zeros(n))[..|s| + n - 1] == s + Zeros(n - 1);
      NumAppendZeros(s, n - 1);
    }
  }

  lemma {:induction false} TrimZerosKeepsNum(s: string)
    requires AllDigits(s)
    ensures Num(TrimZeros(s)) == Num(s) && AllDigits(TrimZeros(s))
    ensures TrimZeros(s) == "" || TrimZeros(s)[0] != '0'
  {
    if s != "" && s[0] == '0' {
      assert s == ['0'] + s[1..];
      NumIgnoresZero(s[1..]);
      TrimZerosKeepsNum(s[1..]);
    }
  }

  predicate NoLeadingZero(s: string) {
    AllDigits(s) && s != "" && s[0] != '0'
  }

  lemma {:induction false} NumPositive(s: string)
    requires NoLeadingZero(s)
    ensures Num(s) > 0
  {
    if |s| > 1 {
      NumPositive(s[..|s| - 1]);
    }
  }

  /** Without leading zeros a number has one spelling. */
  lemma {:induction false} NumInjective(a: string, b: string)
    requires NoLeadingZero(a) && NoLeadingZero(b) && Num(a) == Num(b)
    ensures a == b
    decreases |a|
  {
    var a', b' := a[..|a| - 1], b[..|b| - 1];
    assert Num(a) == 10 * Num(a') + Digit(a[|a| - 1]);
    assert Num(b) == 10 * Num(b') + Digit(b[|b| - 1]);
    assert Num(a') == Num(b') && a[|a| - 1] == b[|b| - 1];
    if a' == "" || b' == "" {
      if a' != "" { NumPositive(a'); }
      if b' != "" { NumPositive(b'); }
    } else {
      NumInjective(a', b');
    }
    assert a == a' + [a[|a| - 1]] && b == b' + [b[|b| - 1]];
  }
}
