/** Decimal numbers as text, padding, and the order `<` compares strings by. */
module Text {

  predicate IsDigit(c: char) {
    '0' <= c <= '9'
  }

  ghost predicate AllDigits(s: string) {
    forall i :: 0 <= i < |s| ==> IsDigit(s[i])
  }

  function DigitValue(c: char): (d: int)
    requires IsDigit(c)
    ensures 0 <= d <= 9
  {
    c as int - '0' as int
  }

  function Digit(d: int): (c: char)
    requires 0 <= d <= 9
    ensures IsDigit(c) && DigitValue(c) == d
  {
    ('0' as int + d) as char
  }

  /** `Number` of a run of digits that continues the number `acc`. */
  function NumberFrom(acc: nat, s: string): nat
    requires AllDigits(s)
    decreases s
  {
    if s == [] then acc else NumberFrom(acc * 10 + DigitValue(s[0]), s[1..])
  }

  function Number(s: string): nat
    requires AllDigits(s)
  {
    NumberFrom(0, s)
  }

  function Decimal(n: nat): (s: string)
    ensures s != [] && AllDigits(s)
  {
    if n < 10 then [Digit(n)] else Decimal(n / 10) + [Digit(n % 10)]
  }

  /** `String(n)`. */
  function Print(n: int): string {
    if n < 0 then "-" + Decimal(-n) else Decimal(n)
  }

  /** `padStart(width, "0")`. */
  function PadStart(s: string, width: nat): (r: string)
    ensures |r| == if |s| < width then width else |s|
    decreases width - |s|
  {
    if width <= |s| then s else PadStart("0" + s, width)
  }

  function Pad(n: int, width: nat): string {
    PadStart(Print(n), width)
  }

  function Pow10(k: nat): (p: nat)
    ensures 0 < p
  {
    if k == 0 then 1 else 10 * Pow10(k - 1)
  }

  lemma {:induction false} NumberFromAppend(acc: nat, s: string, c: char)
    requires AllDigits(s) && IsDigit(c)
    ensures AllDigits(s + [c])
    ensures NumberFrom(acc, s + [c]) == NumberFrom(acc, s) * 10 + DigitValue(c)
    decreases s
  {
    var longer := s + [c];
    if s == [] {
      assert longer == [c] && longer[1..] == [];
      assert NumberFrom(acc, longer) == acc * 10 + DigitValue(c);
    } else {
      NumberFromAppend(acc * 10 + DigitValue(s[0]), s[1..], c);
      assert longer[1..] == s[1..] + [c];
    }
  }

  lemma {:induction false} NumberOfDecimal(n: nat)
    ensures Number(Decimal(n)) == n
  {
    if 10 <= n {
      NumberOfDecimal(n / 10);
      NumberFromAppend(0, Decimal(n / 10), Digit(n % 10));
    } else {
      NumberFromAppend(0, "", Digit(n));
      assert "" + [Digit(n)] == Decimal(n);
    }
  }

  lemma {:induction false} DecimalLength(n: nat, k: nat)
    requires 0 < k
    ensures |Decimal(n)| <= k <==> n < Pow10(k)
  {
    assert Pow10(1) == 10 * Pow10(0);
    if 10 <= n && 1 < k {
      DecimalLength(n / 10, k - 1);
      assert Pow10(k) == 10 * Pow10(k - 1);
    } else if n < 10 && 1 < k {
      Pow10Grows(k);
    }
  }

  lemma {:induction false} Pow10Grows(k: nat)
    requires 0 < k
    ensures 10 <= Pow10(k)
  {
    if 1 < k {
      Pow10Grows(k - 1);
    } else {
      assert Pow10(1) == 10 * Pow10(0);
    }
  }

  lemma {:induction false} PadStartKeepsNumber(s: string, width: nat)
    requires AllDigits(s)
    ensures AllDigits(PadStart(s, width)) && Number(PadStart(s, width)) == Number(s)
    decreases width - |s|
  {
    if |s| < width {
      var longer := "0" + s;
      assert longer[1..] == s;
      PadStartKeepsNumber(longer, width);
    }
  }

  /** A padded number has exactly `width` digits and reads back. */
  lemma PadRoundTrip(n: nat, width: nat)
    requires 0 < width
    ensures AllDigits(Pad(n, width)) && Number(Pad(n, width)) == n
    ensures |Pad(n, width)| == width <==> n < Pow10(width)
  {
    NumberOfDecimal(n);
    PadStartKeepsNumber(Decimal(n), width);
    DecimalLength(n, width);
  }

  // ---------------------------------------------------------------------
  // String order.

  /** `a < b` on strings: by UTF-16 code unit, a proper prefix first. */
  predicate Less(a: string, b: string) {
    if b == [] then false
    else if a == [] then true
    else if a[0] != b[0] then a[0] < b[0]
    else Less(a[1..], b[1..])
  }

  lemma {:induction false} LargerPrefixWins(m: nat, n: nat, a: string, b: string)
    requires m < n && |a| == |b| && AllDigits(a) && AllDigits(b)
    ensures NumberFrom(m, a) < NumberFrom(n, b)
    decreases a
  {
    if a != [] {
      LargerPrefixWins(m * 10 + DigitValue(a[0]), n * 10 + DigitValue(b[0]), a[1..], b[1..]);
    }
  }

  /** Runs of digits of one length order like their numbers; equal ones leave it to what follows. */
  lemma {:induction false} DigitOrder(acc: nat, a: string, b: string, x: string, y: string)
    requires |a| == |b| && AllDigits(a) && AllDigits(b)
    ensures Less(a + x, b + y) <==> NumberFrom(acc, a) < NumberFrom(acc, b) || (a == b && Less(x, y))
    ensures NumberFrom(acc, a) == NumberFrom(acc, b) <==> a == b
    decreases a
  {
    if a == [] {
      assert a + x == x && b + y == y;
    } else {
      assert (a + x)[1..] == a[1..] + x && (b + y)[1..] == b[1..] + y;
      var m, n := acc * 10 + DigitValue(a[0]), acc * 10 + DigitValue(b[0]);
      assert a == [a[0]] + a[1..] && b == [b[0]] + b[1..];
      if a[0] == b[0] {
        DigitOrder(m, a[1..], b[1..], x, y);
      } else if a[0] < b[0] {
        LargerPrefixWins(m, n, a[1..], b[1..]);
      } else {
        LargerPrefixWins(n, m, b[1..], a[1..]);
      }
    }
  }
}
