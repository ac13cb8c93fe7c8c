/** Decimal and hexadecimal text, and where a text can be cut apart again. */
module Strings {

  predicate IsDigit(c: char) {
    '0' <= c <= '9'
  }

  function DigitChar(d: nat): (c: char)
    requires d < 10
    ensures IsDigit(c)
  {
    ['0', '1', '2', '3', '4', '5', '6', '7', '8', '9'][d]
  }

  function DigitValue(c: char): (d: nat)
    requires IsDigit(c)
    ensures d < 10
  {
    (c as int - '0' as int) as nat
  }

  ghost predicate AllDigits(s: string) {
    forall i :: 0 <= i < |s| ==> IsDigit(s[i])
  }

  /** `to_string` of an unsigned integer. */
  function Decimal(n: nat): (s: string)
    ensures s != [] && AllDigits(s)
  {
    if n < 10 then [DigitChar(n)] else Decimal(n / 10) + [DigitChar(n % 10)]
  }

  function ParseDecimal(s: string): (n: nat)
    requires AllDigits(s)
  {
    if s == [] then 0 else ParseDecimal(s[..|s| - 1]) * 10 + DigitValue(s[|s| - 1])
  }

  lemma {:induction false} DigitRoundTrip(d: nat)
    requires d < 10
    ensures DigitValue(DigitChar(d)) == d
  {
    if d == 0 {} else if d == 1 {} else if d == 2 {} else if d == 3 {} else if d == 4 {}
    else if d == 5 {} else if d == 6 {} else if d == 7 {} else if d == 8 {} else {}
  }

  lemma {:induction false} DecimalRoundTrip(n: nat)
    ensures ParseDecimal(Decimal(n)) == n
  {
    hide DigitChar, DigitValue;
    DigitRoundTrip(n % 10);
    var s := Decimal(n);
    if n < 10 {
      assert s[..0] == [];
    } else {
      DecimalRoundTrip(n / 10);
      assert s[..|s| - 1] == Decimal(n / 10);
    }
  }

  lemma {:induction false} DecimalInjective(m: nat, n: nat)
    requires Decimal(m) == Decimal(n)
    ensures m == n
  {
    DecimalRoundTrip(m);
    DecimalRoundTrip(n);
  }

  ghost predicate Lacks(s: string, c: char) {
    forall i :: 0 <= i < |s| ==> s[i] != c
  }

  lemma {:induction false} DecimalLacks(n: nat, c: char)
    requires !IsDigit(c)
    ensures Lacks(Decimal(n), c)
  {
    hide Decimal;
  }

  /** A text is cut at the last occurrence of a separator in only one way. */
  lemma {:induction false} CutLast(a: string, x: string, b: string, y: string, c: char)
    requires a + [c] + x == b + [c] + y && Lacks(x, c) && Lacks(y, c)
    ensures a == b && x == y
  {
    var s, r := a + [c] + x, b + [c] + y;
    assert s[|a|] == c && r[|b|] == c;
    assert forall i :: |a| < i < |s| ==> s[i] == x[i - |a| - 1];
    assert forall i :: |b| < i < |r| ==> r[i] == y[i - |b| - 1];
    assert |a| == |b|;
    assert a == s[..|a|] && b == r[..|b|] && x == s[|a| + 1..] && y == r[|b| + 1..];
  }

  /** And at the first occurrence. */
  lemma {:induction false} CutFirst(a: string, x: string, b: string, y: string, c: char)
    requires a + [c] + x == b + [c] + y && Lacks(a, c) && Lacks(b, c)
    ensures a == b && x == y
  {
    var s, r := a + [c] + x, b + [c] + y;
    assert s[|a|] == c && r[|b|] == c;
    assert forall i :: 0 <= i < |a| ==> s[i] == a[i];
    assert forall i :: 0 <= i < |b| ==> r[i] == b[i];
    assert |a| == |b|;
    assert a == s[..|a|] && b == r[..|b|] && x == s[|a| + 1..] && y == r[|b| + 1..];
  }

  // ----- hexadecimal

  newtype Byte = x: int | 0 <= x < 256

  function HexChar(d: nat): (c: char)
    requires d < 16
  {
    ['0', '1', '2', '3', '4', '5', '6', '7', '8', '9', 'a', 'b', 'c', 'd', 'e', 'f'][d]
  }

  lemma {:induction false} HexCharInjective(d: nat, e: nat)
    requires d < 16 && e < 16 && HexChar(d) == HexChar(e)
    ensures d == e
  {
  }

  /** `hex::encode`. */
  function Hex(bytes: seq<Byte>): (s: string)
    ensures |s| == 2 * |bytes|
  {
    if bytes == [] then [] else [HexChar(bytes[0] as nat / 16), HexChar(bytes[0] as nat % 16)] + Hex(bytes[1..])
  }

  lemma {:induction false} HexInjective(a: seq<Byte>, b: seq<Byte>)
    requires Hex(a) == Hex(b)
    ensures a == b
    decreases a
  {
    hide HexChar;
    if a != [] && b != [] {
      var s, r := Hex(a), Hex(b);
      assert s[0] == HexChar(a[0] as nat / 16) && r[0] == HexChar(b[0] as nat / 16);
      assert s[1] == HexChar(a[0] as nat % 16) && r[1] == HexChar(b[0] as nat % 16);
      HexCharInjective(a[0] as nat / 16, b[0] as nat / 16);
      HexCharInjective(a[0] as nat % 16, b[0] as nat % 16);
      assert s[2..] == Hex(a[1..]) && r[2..] == Hex(b[1..]);
      HexInjective(a[1..], b[1..]);
      assert a == [a[0]] + a[1..] && b == [b[0]] + b[1..];
    } else {
      assert |a| == |b|;
    }
  }

  /** The digit a hexadecimal character stands for. */
  function HexValue(c: char): (d: nat) {
    if '0' <= c <= '9' then c as nat - '0' as nat else if 'a' <= c <= 'f' then 10 + c as nat - 'a' as nat else 0
  }

  /** Every byte is two characters, the high half first. */
  lemma {:induction false} HexAt(bytes: seq<Byte>, i: nat)
    requires i < |bytes|
    ensures 16 * HexValue(Hex(bytes)[2 * i]) + HexValue(Hex(bytes)[2 * i + 1]) == bytes[i] as nat
  {
    var s := Hex(bytes);
    if i > 0 {
      HexAt(bytes[1..], i - 1);
      assert s[2 * i] == Hex(bytes[1..])[2 * (i - 1)] && s[2 * i + 1] == Hex(bytes[1..])[2 * (i - 1) + 1];
    } else {
      HexCharValue(bytes[0] as nat / 16);
      HexCharValue(bytes[0] as nat % 16);
    }
  }

  lemma {:induction false} HexCharValue(d: nat)
    requires d < 16
    ensures HexValue(HexChar(d)) == d
  {
  }

  lemma {:induction false} HexLacks(a: seq<Byte>, c: char)
    requires c == ':'
    ensures Lacks(Hex(a), c)
  {
    if a != [] {
      HexLacks(a[1..], c);
      var s := Hex(a);
      forall i | 0 <= i < |s| ensures s[i] != c {
        if i >= 2 {
          assert s[i] == Hex(a[1..])[i - 2];
        }
      }
    }
  }
}
