/**
 Number printing (`itoa` in kernel/driver/console.c) with a parser as its inverse.
 */
module Console {
  import opened Basics

  function Digit(n: nat): char
    requires n < 16
  {
    if n < 10 then '0' + n as char else 'a' + (n - 10) as char
  }

  /** The numeral of `n` in base `b`, the highest digit first. */
  function Numeral(n: nat, b: nat): (s: string)
    requires b == 10 || b == 16
    ensures s != []
  {
    if n < b then [Digit(n)] else Numeral(n / b, b) + [Digit(n % b)]
  }

  function DigitValue(c: char): int {
    if '0' <= c <= '9' then (c - '0') as int
    else if 'a' <= c <= 'f' then (c - 'a') as int + 10
    else -1
  }

  function Parse(s: string, b: nat): int {
    if s == [] then 0 else Parse(s[..|s| - 1], b) * b + DigitValue(s[|s| - 1])
  }

  /** What `itoa` prints: a sign in decimal mode, else the value as an unsigned 32-bit number. */
  function Printed(base: char, d: int): (s: string)
    requires -0x8000_0000 <= d < 0x8000_0000
  {
    if base == 'd' && d < 0 then "-" + Numeral(-d, 10) else Numeral(d % U32, if base == 'x' then 16 else 10)
  }

  /** The inverse of `Printed`. */
  function ParseSigned(s: string, base: char): int {
    if base == 'd' && s != [] && s[0] == '-' then -Parse(s[1..], 10)
    else
      var n := Parse(s, if base == 'x' then 16 else 10);
      if n >= 0x8000_0000 then n - U32 else n
  }

  lemma DigitRoundTrip(n: nat)
    requires n < 16
    ensures DigitValue(Digit(n)) == n
  {
  }

  lemma {:induction false} NumeralRoundTrip(n: nat, b: nat)
    requires b == 10 || b == 16
    ensures Parse(Numeral(n, b), b) == n
  {
    hide Digit, DigitValue;
    DigitRoundTrip(n % b);
    var s := Numeral(n, b);
    if n >= b {
      NumeralRoundTrip(n / b, b);
      assert s[..|s| - 1] == Numeral(n / b, b);
      assert n == n / b * b + n % b;
    }
  }

  /** A numeral has digits only and no leading zero, unless it is the number zero. */
  lemma {:induction false} NumeralDigits(n: nat, b: nat)
    requires b == 10 || b == 16
    ensures forall i :: 0 <= i < |Numeral(n, b)| ==> 0 <= DigitValue(Numeral(n, b)[i]) < b
    ensures Numeral(n, b)[0] == '0' ==> n == 0
  {
    if n < b {
      DigitRoundTrip(n);
    } else {
      hide Digit, DigitValue;
      DigitRoundTrip(n % b);
      NumeralDigits(n / b, b);
      QuotientPositive(n, b);
    }
  }

  lemma QuotientPositive(n: nat, b: nat)
    requires 0 < b <= n
    ensures n / b > 0
  {
  }

  /** Ten decimal digits or eight hexadecimal ones are enough for 32 bits. */
  lemma NumeralLength(n: nat)
    requires n < U32
    ensures |Numeral(n, 10)| <= 10 && |Numeral(n, 16)| <= 8
  {
    LengthBound(n, 10, 10, 10_000_000_000);
    LengthBound(n, 16, 8, U32);
  }

  lemma {:induction false} LengthBound(n: nat, b: nat, k: nat, bound: nat)
    requires (b == 10 || b == 16) && 1 <= k && bound == Power(b, k) && n < bound
    ensures |Numeral(n, b)| <= k
    decreases k
  {
    if n >= b {
      assert bound == b * Power(b, k - 1);
      LengthBound(n / b, b, k - 1, Power(b, k - 1));
    }
  }

  function Power(b: nat, k: nat): nat {
    if k == 0 then 1 else b * Power(b, k - 1)
  }

  /** Number printing loses nothing: parsing the output gives the value back. */
  lemma PrintedRoundTrip(base: char, d: int)
    requires -0x8000_0000 <= d < 0x8000_0000
    ensures ParseSigned(Printed(base, d), base) == d
    ensures |Printed(base, d)| + 1 <= 12
  {
    hide Numeral, Parse, DigitValue;
    if base == 'd' && d < 0 {
      NumeralRoundTrip(-d, 10);
      NumeralLength(-d);
      assert Printed(base, d)[1..] == Numeral(-d, 10);
    } else {
      var b := if base == 'x' then 16 else 10;
      NumeralRoundTrip(d % U32, b);
      NumeralLength(d % U32);
      NoSign(d % U32, b);
    }
  }

  lemma NoSign(n: nat, b: nat)
    requires b == 10 || b == 16
    ensures Numeral(n, b)[0] != '-'
  {
    NumeralDigits(n, b);
  }

  /**
   What is printed, apart from a sign, has digits of its base only, and starts with a zero only if
   the value is zero.
   */
  lemma PrintedDigits(base: char, d: int)
    requires -0x8000_0000 <= d < 0x8000_0000
    ensures var s, b := Printed(base, d), if base == 'x' then 16 else 10;
      var from := if base == 'd' && d < 0 then 1 else 0;
      && from < |s| && (from == 1 ==> s[0] == '-') && (s[from] == '0' ==> d == 0 && s == "0")
      && forall i :: from <= i < |s| ==> 0 <= DigitValue(s[i]) < b
  {
    hide Numeral, DigitValue;
    var n, b := if base == 'd' && d < 0 then -d else d % U32, if base == 'x' then 16 else 10;
    NumeralDigits(n, b);
    ZeroNumeral(b);
    var s, from := Printed(base, d), if base == 'd' && d < 0 then 1 else 0;
    assert forall i :: from <= i < |s| ==> s[i] == Numeral(n, b)[i - from];
  }

  lemma ZeroNumeral(b: nat)
    requires b == 10 || b == 16
    ensures Numeral(0, b) == "0"
  {
  }

  // ----- the method

  function Reversed(s: string): (r: string)
    ensures |r| == |s|
  {
    if s == [] then [] else Reversed(s[1..]) + [s[0]]
  }

  lemma {:induction false} ReversedAt(s: string, i: nat)
    requires i < |s|
    ensures Reversed(s)[i] == s[|s| - 1 - i]
  {
    if i < |s| - 1 {
      ReversedAt(s[1..], i);
    }
  }

  lemma {:induction false} ReversedSnoc(s: string, c: char)
    ensures Reversed(s + [c]) == [c] + Reversed(s)
  {
    if s != [] {
      ReversedSnoc(s[1..], c);
      assert (s + [c])[1..] == s[1..] + [c];
    } else {
      assert s + [c] == [c];
    }
  }

  /** The digit that `itoa` writes next, and what is left to write. */
  lemma NumeralStep(n: nat, b: nat)
    requires b == 10 || b == 16
    ensures Numeral(n, b) == (if n / b != 0 then Numeral(n / b, b) else []) + [Digit(n % b)]
  {
  }

  /** The buffer outside `[lo, hi)` is as it was. */
  twostate predicate Kept(buf: array<char>, lo: int, hi: int)
    reads buf
  {
    forall k :: 0 <= k < buf.Length && !(lo <= k < hi) ==> buf[k] == old(buf[k])
  }

  /** The digit loop: the lowest digit first, at least one digit. */
  method WriteDigits(buf: array<char>, start: nat, value: nat, divisor: nat) returns (p: nat)
    requires (divisor == 10 || divisor == 16) && start + |Numeral(value, divisor)| < buf.Length
    modifies buf
    ensures p == start + |Numeral(value, divisor)|
    ensures Reversed(buf[start..p]) == Numeral(value, divisor) && Kept(buf, start, p)
  {
    hide Digit, Numeral, Reversed;
    var ud: nat := value;
    p := start;
    var more := true;
    ghost var left := Numeral(ud, divisor);
    ReversedNone(buf[start..p]);
    while more
      invariant start <= p <= start + |Numeral(value, divisor)|
      invariant more ==> left == Numeral(ud, divisor)
      invariant !more ==> left == []
      invariant Numeral(value, divisor) == left + Reversed(buf[start..p])
      invariant Kept(buf, start, p)
      decreases more, ud
    {
      var remainder := ud % divisor;
      NumeralStep(ud, divisor);
      ReversedSnoc(buf[start..p], Digit(remainder));
      ghost var done := buf[start..p];
      buf[p] := Digit(remainder);
      p := p + 1;
      assert buf[start..p] == done + [Digit(remainder)];
      ud := ud / divisor;
      more := ud != 0;
      left := if more then Numeral(ud, divisor) else [];
      assert left + [Digit(remainder)] + Reversed(done) == left + ([Digit(remainder)] + Reversed(done));
    }
  }

  lemma ReversedNone(s: string)
    requires s == []
    ensures Reversed(s) == []
  {
  }

  /** The in-place reversal. */
  method ReverseRange(buf: array<char>, lo: nat, hi: nat)
    requires lo < hi <= buf.Length
    modifies buf
    ensures buf[lo..hi] == Reversed(old(buf[lo..hi])) && Kept(buf, lo, hi)
  {
    hide Reversed;
    ghost var was := buf[..];
    var p1, p2 := lo, hi - 1;
    while p1 < p2
      invariant lo <= p1 <= p2 + 1 <= hi && p1 - lo == hi - 1 - p2
      invariant forall k :: 0 <= k < buf.Length ==>
        buf[k] == was[if lo <= k < p1 || p2 < k < hi then lo + hi - 1 - k else k]
    {
      var t := buf[p1];
      buf[p1] := buf[p2];
      buf[p2] := t;
      p1 := p1 + 1;
      p2 := p2 - 1;
    }
    forall i | 0 <= i < hi - lo
      ensures buf[lo..hi][i] == Reversed(was[lo..hi])[i]
    {
      ReversedAt(was[lo..hi], i);
    }
  }

  /** `itoa`; negating the most negative value in decimal mode overflows and is excluded. */
  method Itoa(buf: array<char>, base: char, d: int)
    requires -0x8000_0000 <= d < 0x8000_0000 && !(base == 'd' && d == -0x8000_0000) && buf.Length >= 12
    modifies buf
    ensures var n := |Printed(base, d)|; n < 12 && buf[..n] == Printed(base, d) && buf[n] == '\0'
    ensures Kept(buf, 0, |Printed(base, d)| + 1)
    ensures ParseSigned(buf[..|Printed(base, d)|], base) == d
    ensures buf[if base == 'd' && d < 0 then 1 else 0] == '0' ==> d == 0 && buf[1] == '\0'
  {
    hide Numeral, Reversed, ParseSigned;
    PrintedRoundTrip(base, d);
    PrintedDigits(base, d);
    var start, ud, divisor := 0, d % U32, 10;
    if base == 'd' && d < 0 {
      buf[0] := '-';
      start, ud := 1, -d;
    } else if base == 'x' {
      divisor := 16;
    }
    var p := WriteDigits(buf, start, ud, divisor);
    buf[p] := '\0';
    ReverseRange(buf, start, p);
    assert buf[..p] == buf[..start] + buf[start..p];
  }
}
