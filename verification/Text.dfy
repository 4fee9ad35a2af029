/** C characters, C strings and the pieces of <string.h> and <stdio.h> the programs rely on:
    `strcmp`, decimal printing (`%d`, `%ld`) and `sscanf` conversions. */
module Text {

  datatype Option<+T> = None | Some(value: T)

  /** A byte; one `char` of a C buffer. */
  type Byte = c: char | c as int < 256 witness ' '

  /** A byte of a C string: anything but the terminator. */
  type CChar = c: char | 0 < c as int < 256 witness ' '

  /** A C string, without its terminator. */
  type CString = seq<CChar>

  const INT_MAX := 0x7fff_ffff

  // ---------- strcmp ----------

  /** The difference of the first two characters that differ, read as unsigned chars; the terminator is 0. */
  function StrCmp(a: CString, b: CString): int {
    if a == [] && b == [] then 0
    else if a == [] then -(b[0] as int)
    else if b == [] then a[0] as int
    else if a[0] != b[0] then a[0] as int - b[0] as int
    else StrCmp(a[1..], b[1..])
  }

  lemma {:induction false} StrCmpZero(a: CString, b: CString)
    ensures StrCmp(a, b) == 0 <==> a == b
  {
    if a != [] && b != [] && a[0] == b[0] {
      StrCmpZero(a[1..], b[1..]);
      assert a == [a[0]] + a[1..] && b == [b[0]] + b[1..];
    }
  }

  lemma {:induction false} StrCmpAntisymmetric(a: CString, b: CString)
    ensures StrCmp(a, b) == -StrCmp(b, a)
  {
    if a != [] && b != [] && a[0] == b[0] {
      StrCmpAntisymmetric(a[1..], b[1..]);
    }
  }

  lemma {:induction false} StrCmpTransitive(a: CString, b: CString, c: CString)
    requires StrCmp(a, b) < 0 && StrCmp(b, c) < 0
    ensures StrCmp(a, c) < 0
  {
    if a != [] && b != [] && c != [] && a[0] == b[0] == c[0] {
      StrCmpTransitive(a[1..], b[1..], c[1..]);
    }
  }

  /** The strings differ first at `k`, where `a` ends or has the smaller byte. */
  predicate SmallerAt(a: CString, b: CString, k: nat) {
    && k <= |a| && k < |b| && a[..k] == b[..k]
    && (k == |a| || a[k] as int < b[k] as int)
  }

  /** Alphabetical order by bytes, a string coming before its extensions. */
  ghost predicate Before(a: CString, b: CString) {
    exists k: nat :: SmallerAt(a, b, k)
  }

  lemma SameFirst(a: CString, b: CString, k: nat)
    requires SmallerAt(a, b, k) && k > 0
    ensures a != [] && b != [] && a[0] == b[0]
  {
    assert a[..k][0] == b[..k][0];
  }

  /** `strcmp` is negative exactly for that order. */
  lemma {:induction false} StrCmpIsBefore(a: CString, b: CString)
    ensures StrCmp(a, b) < 0 <==> Before(a, b)
  {
    if a == [] || b == [] || a[0] != b[0] {
      if StrCmp(a, b) < 0 {
        assert SmallerAt(a, b, 0);
      }
      if k: nat :| SmallerAt(a, b, k) {
        if k > 0 {
          SameFirst(a, b, k);
        }
      }
    } else {
      StrCmpIsBefore(a[1..], b[1..]);
      if k: nat :| SmallerAt(a[1..], b[1..], k) {
        assert a[..k + 1] == [a[0]] + a[1..][..k] && b[..k + 1] == [b[0]] + b[1..][..k];
        assert SmallerAt(a, b, k + 1);
      }
      if k: nat :| SmallerAt(a, b, k) {
        assert k > 0;
        assert a[1..][..k - 1] == a[..k][1..] && b[1..][..k - 1] == b[..k][1..];
        assert SmallerAt(a[1..], b[1..], k - 1);
      }
    }
  }

  // ---------- decimal numbers ----------

  predicate IsDigit(c: char) {
    '0' <= c <= '9'
  }

  function Digit(d: nat): (c: CChar)
    requires d < 10
    ensures IsDigit(c) && c as int - '0' as int == d
  {
    ('0' as int + d) as char
  }

  /** What `%d` and `%ld` print for a number that is not negative. */
  function Decimal(n: nat): (s: CString)
    ensures s != [] && forall i :: 0 <= i < |s| ==> IsDigit(s[i])
  {
    if n < 10 then [Digit(n)] else Decimal(n / 10) + [Digit(n % 10)]
  }

  function Pow10(k: nat): (p: nat)
    ensures p > 0
  {
    if k == 0 then 1 else 10 * Pow10(k - 1)
  }

  lemma {:induction false} DecimalLength(n: nat, k: nat)
    requires k > 0 && n < Pow10(k)
    ensures |Decimal(n)| <= k
  {
    assert Pow10(1) == 10 * Pow10(0);
    if n >= 10 {
      assert Pow10(k) == 10 * Pow10(k - 1);
      DecimalLength(n / 10, k - 1);
    }
  }

  /** The bytes 48 to 57, the digits of ASCII. */
  predicate Digits(s: string) {
    forall i :: 0 <= i < |s| ==> 48 <= s[i] as int <= 57
  }

  /** The number written in decimal: each digit times the power of ten of its place. */
  function Value(s: string): nat
    requires Digits(s)
  {
    if s == "" then 0 else (s[0] as int - 48) * Pow10(|s| - 1) + Value(s[1..])
  }

  lemma PowNext(k: nat)
    ensures Pow10(0) == 1 && Pow10(k + 1) == 10 * Pow10(k)
  {
  }

  lemma Spread(acc: nat, d: nat, p: nat)
    ensures (acc * 10 + d) * p == acc * (10 * p) + d * p
    ensures acc * (10 * p) == 10 * (acc * p)
  {
  }

  lemma {:induction false} ValueAppend(s: string, c: char)
    requires Digits(s) && 48 <= c as int <= 57
    ensures Digits(s + [c]) && Value(s + [c]) == 10 * Value(s) + (c as int - 48)
  {
    hide Pow10;
    PowNext(0);
    if s == "" {
      assert s + [c] == [c] && [c][1..] == "";
    } else {
      var d := s[0] as int - 48;
      assert (s + [c])[0] == s[0] && (s + [c])[1..] == s[1..] + [c];
      ValueAppend(s[1..], c);
      PowNext(|s| - 1);
      Spread(d, 0, Pow10(|s| - 1));
    }
  }

  /** Printing writes the number in decimal, with no leading zero. */
  lemma {:induction false} DecimalIsValue(n: nat)
    ensures Digits(Decimal(n)) && Value(Decimal(n)) == n
    ensures Decimal(n)[0] as int == 48 ==> n == 0 && |Decimal(n)| == 1
  {
    if n < 10 {
      assert Decimal(n)[1..] == "" && Pow10(0) == 1;
    } else {
      DecimalIsValue(n / 10);
      ValueAppend(Decimal(n / 10), Digit(n % 10));
    }
  }

  /** What `%d` prints of an int that is not negative is at most ten digits. */
  lemma IntDigits(n: nat)
    requires n <= INT_MAX
    ensures |Decimal(n)| <= 10
  {
    assert Pow10(5) == 100_000;
    assert Pow10(10) == 10_000_000_000;
    DecimalLength(n, 10);
  }

  /** Reads digits while there are any; returns the number and the text left over. */
  function ScanDigits(s: string, acc: nat): (r: (nat, string)) {
    if s == [] || !IsDigit(s[0]) then (acc, s)
    else ScanDigits(s[1..], acc * 10 + (s[0] as int - '0' as int))
  }

  lemma {:induction false} ScanDecimal(n: nat, rest: string)
    ensures ScanDigits(Decimal(n) + rest, 0) == ScanDigits(rest, n)
  {
    if n < 10 {
      assert (Decimal(n) + rest)[1..] == rest;
    } else {
      var d := Digit(n % 10);
      assert Decimal(n) + rest == Decimal(n / 10) + ([d] + rest);
      ScanDecimal(n / 10, [d] + rest);
      assert ([d] + rest)[1..] == rest;
    }
  }

  /** Scanning digits reads the number written in decimal, up to the first byte that is no digit. */
  lemma {:induction false} ScanDigitsIsValue(s: string, rest: string, acc: nat)
    requires Digits(s) && (rest != "" ==> !(48 <= rest[0] as int <= 57))
    ensures ScanDigits(s + rest, acc) == (acc * Pow10(|s|) + Value(s), rest)
  {
    hide Pow10;
    PowNext(0);
    if s == "" {
      assert s + rest == rest;
    } else {
      var d := s[0] as int - 48;
      assert (s + rest)[0] == s[0] && (s + rest)[1..] == s[1..] + rest;
      ScanDigitsIsValue(s[1..], rest, acc * 10 + d);
      PowNext(|s| - 1);
      Spread(acc, d, Pow10(|s| - 1));
    }
  }

  // ---------- sscanf ----------

  predicate IsSpace(c: char) {
    c == ' ' || c == '\t' || c == '\n' || c == '\r' || c as int == 11 || c as int == 12
  }

  predicate NoSpace(s: string) {
    forall i :: 0 <= i < |s| ==> !IsSpace(s[i])
  }

  function SkipSpace(s: string): string {
    if s == [] || !IsSpace(s[0]) then s else SkipSpace(s[1..])
  }

  /** The longest prefix without white space. */
  function WordLength(s: string): (n: nat)
    ensures n <= |s| && NoSpace(s[..n]) && (n < |s| ==> IsSpace(s[n]))
  {
    if s == [] || IsSpace(s[0]) then 0
    else
      var n := 1 + WordLength(s[1..]);
      assert s[..n] == [s[0]] + s[1..][..n - 1];
      n
  }

  /** `%s`: skips white space, then takes a word that is not empty. */
  function ScanWord(s: string): Option<(string, string)> {
    var t := SkipSpace(s);
    var n := WordLength(t);
    if n == 0 then None else Some((t[..n], t[n..]))
  }

  lemma ScanWordOf(w: string, rest: string)
    requires w != [] && NoSpace(w) && (rest != [] ==> IsSpace(rest[0]))
    ensures ScanWord(w + rest) == Some((w, rest))
  {
    var t := w + rest;
    assert SkipSpace(t) == t;
    var n := WordLength(t);
    assert forall i :: 0 <= i < |w| ==> !IsSpace(t[i]);
    assert rest != [] ==> IsSpace(t[|w|]);
    assert forall i :: 0 <= i < n ==> !IsSpace(t[..n][i]) && t[..n][i] == t[i];
    assert t[..n] == w && t[n..] == rest;
  }

  /** `%d` and `%ld`: skips white space, then takes an optional sign and at least one digit. */
  function ScanInt(s: string): Option<(int, string)> {
    var t := SkipSpace(s);
    var signed := t != [] && (t[0] == '-' || t[0] == '+');
    var u := if signed then t[1..] else t;
    if u == [] || !IsDigit(u[0]) then None
    else
      var (n, rest) := ScanDigits(u, 0);
      var value: int := if signed && t[0] == '-' then -(n as int) else n;
      Some((value, rest))
  }

  /** `%d` and `%ld` read a number written in decimal, with or without a sign in front. */
  lemma ScanIntIsValue(s: string, rest: string)
    requires s != "" && Digits(s) && (rest != "" ==> !(48 <= rest[0] as int <= 57))
    ensures ScanInt(s + rest) == Some((Value(s) as int, rest))
    ensures ScanInt("-" + s + rest) == Some((-(Value(s) as int), rest))
    ensures ScanInt("+" + s + rest) == Some((Value(s) as int, rest))
  {
    hide Value, Pow10, ScanDigits;
    var t := s + rest;
    ScanDigitsIsValue(s, rest, 0);
    assert t[0] == s[0];
    assert "-" + s + rest == "-" + t && "+" + s + rest == "+" + t;
    SignedDigits(t);
  }

  lemma SignedDigits(t: string)
    requires t != "" && IsDigit(t[0])
    ensures ScanInt(t) == Some((ScanDigits(t, 0).0 as int, ScanDigits(t, 0).1))
    ensures ScanInt("-" + t) == Some((-(ScanDigits(t, 0).0 as int), ScanDigits(t, 0).1))
    ensures ScanInt("+" + t) == ScanInt(t)
  {
    hide ScanDigits;
    assert ("-" + t)[1..] == t && ("+" + t)[1..] == t;
  }

  /** White space is the six bytes of `isspace`. */
  lemma SpaceBytes(c: char)
    ensures IsSpace(c) <==> c as int == 32 || 9 <= c as int <= 13
  {
  }

  /** Printing a number and scanning it back gives the number and whatever followed it. */
  lemma ScanIntOf(n: nat, rest: string)
    requires rest != [] ==> !IsDigit(rest[0])
    ensures ScanInt(Decimal(n) + rest) == Some((n, rest))
  {
    var t := Decimal(n) + rest;
    assert t[0] == Decimal(n)[0] && IsDigit(t[0]);
    assert SkipSpace(t) == t;
    ScanDecimal(n, rest);
  }

  /** A literal part of a format: it must be matched exactly. */
  function ScanLiteral(literal: string, s: string): Option<string> {
    if literal <= s then Some(s[|literal|..]) else None
  }
}
