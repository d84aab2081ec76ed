/** Decimal notation: what `local_itoa` writes and `local_atoi` reads back. */
module Decimal {
  predicate IsDigit(c: char) {
    '0' <= c <= '9'
  }

  function DigitOf(d: nat): char
    requires d < 10
  {
    '0' + d as char
  }

  function ValueOf(c: char): nat
    requires IsDigit(c)
  {
    (c - '0') as nat
  }

  function Digits(n: nat): string {
    if n < 10 then [DigitOf(n)] else Digits(n / 10) + [DigitOf(n % 10)]
  }

  /** Decimal notation without leading zeros, a minus sign in front of negatives. */
  function Numeral(i: int): string {
    if i < 0 then "-" + Digits(-i) else Digits(i)
  }

  /** The digits are those of the decimal system, the most significant one first. */
  lemma TenDigits()
    ensures Numeral(-98765) == "-98765" && Numeral(43210) == "43210"
  {
    assert Digits(987) == "987" && Digits(432) == "432";
  }

  /** The number of leading digits. */
  function DigitRun(s: string): nat {
    if s != [] && IsDigit(s[0]) then 1 + DigitRun(s[1..]) else 0
  }

  /** The value of a sequence of digits, read from the left. */
  function Value(s: string): nat
    requires forall c :: c in s ==> IsDigit(c)
  {
    if s == [] then 0 else 10 * Value(s[..|s| - 1]) + ValueOf(s[|s| - 1])
  }

  lemma {:induction false} DigitRunBound(s: string)
    ensures DigitRun(s) <= |s|
    ensures forall k :: 0 <= k < DigitRun(s) ==> IsDigit(s[k])
    ensures DigitRun(s) < |s| ==> !IsDigit(s[DigitRun(s)])
  {
    if s != [] && IsDigit(s[0]) {
      DigitRunBound(s[1..]);
    }
  }

  /** The number at the front of a string, after an optional minus sign. */
  function Number(s: string): int {
    var neg := s != [] && s[0] == '-';
    var t := if neg then s[1..] else s;
    DigitRunBound(t);
    var n: int := Value(t[..DigitRun(t)]);
    if neg then -n else n
  }

  lemma {:induction false} DigitsValue(n: nat)
    ensures |Digits(n)| > 0
    ensures forall c :: c in Digits(n) ==> IsDigit(c)
    ensures Value(Digits(n)) == n
  {
    if n < 10 {
      assert Digits(n)[..0] == [];
    } else {
      DigitsValue(n / 10);
      assert Digits(n)[..|Digits(n)| - 1] == Digits(n / 10);
    }
  }

  lemma {:induction false} DigitRunEnds(s: string, rest: string)
    requires forall c :: c in s ==> IsDigit(c)
    requires rest != [] ==> !IsDigit(rest[0])
    ensures DigitRun(s + rest) == |s|
  {
    if s == [] {
      assert s + rest == rest;
    } else {
      assert (s + rest)[0] == s[0] && (s + rest)[1..] == s[1..] + rest;
      DigitRunEnds(s[1..], rest);
    }
  }

  /** A numeral is read back as its number, whatever follows it. */
  lemma NumeralReadBack(i: int, rest: string)
    requires rest != [] ==> !IsDigit(rest[0])
    ensures Number(Numeral(i) + rest) == i
  {
    hide Digits, Value, DigitRun;
    var n := if i < 0 then -i else i;
    var digits, s := Digits(n), Numeral(i) + rest;
    DigitsValue(n);
    DigitRunEnds(digits, rest);
    assert (digits + rest)[..|digits|] == digits;
    if i < 0 {
      assert s[0] == '-' && s[1..] == digits + rest;
    } else {
      assert s[0] == digits[0] && IsDigit(digits[0]);
    }
  }

  /** `was` with `text` and a NUL put at `at`. */
  ghost predicate Written(now: seq<char>, was: seq<char>, at: nat, text: string) {
    && at + |text| < |was| == |now|
    && (forall k :: 0 <= k < |now| && !(at <= k <= at + |text|) ==> now[k] == was[k])
    && now[at..at + |text|] == text && now[at + |text|] == '\0'
  }

  lemma WrittenBehindMinus(now: seq<char>, mid: seq<char>, was: seq<char>, at: nat, text: string)
    requires at < |was| && mid == was[at := '-'] && Written(now, mid, at + 1, text)
    ensures Written(now, was, at, "-" + text)
  {
    assert now[at..at + 1 + |text|] == [now[at]] + now[at + 1..at + 1 + |text|];
  }

  lemma WrittenDigit(now: seq<char>, mid: seq<char>, was: seq<char>, at: nat, text: string, c: char)
    requires at + |text| + 1 < |was| == |mid|
    requires (mid == was && text == []) || Written(mid, was, at, text)
    requires now == mid[at + |text| := c][at + |text| + 1 := '\0']
    ensures Written(now, was, at, text + [c])
  {
    assert now[at..at + |text| + 1] == mid[at..at + |text|] + [c];
  }

  /** `local_itoa`: writes the numeral and a terminating NUL at `at`, and returns the
      position of the NUL. The recursion writes the leading digits first; the NUL it
      leaves behind them is overwritten. */
  method LocalItoa(buf: array<char>, at: nat, i: int) returns (end: nat)
    requires at + |Numeral(i)| < buf.Length
    modifies buf
    ensures end == at + |Numeral(i)| && Written(buf[..], old(buf[..]), at, Numeral(i))
    decreases i < 0, if i < 0 then -i else i
  {
    hide Written;
    ghost var was := buf[..];
    if i < 0 {
      buf[at] := '-';
      ghost var mid := buf[..];
      end := LocalItoa(buf, at + 1, -i);
      WrittenBehindMinus(buf[..], mid, was, at, Numeral(-i));
    } else {
      end := at;
      ghost var text := "";
      if i >= 10 {
        end := LocalItoa(buf, end, i / 10);
        text := Numeral(i / 10);
      }
      ghost var mid := buf[..];
      buf[end] := DigitOf(i % 10);
      end := end + 1;
      buf[end] := '\0';
      WrittenDigit(buf[..], mid, was, at, text, DigitOf(i % 10));
      assert text + [DigitOf(i % 10)] == Numeral(i);
    }
  }

  /** `local_atoi` on a C string, whose end stands for its NUL. */
  method LocalAtoi(s: string) returns (r: int)
    ensures r == Number(s)
  {
    hide Digits, Numeral;
    var n, k := 0, 0;
    var neg := s != [] && s[0] == '-';
    if neg {
      k := 1;
    }
    ghost var t, from := s[k..], k;
    DigitRunBound(t);
    while k < |s| && IsDigit(s[k])
      invariant from <= k <= |s| && k - from <= DigitRun(t)
      invariant n == Value(t[..k - from])
    {
      assert t[k - from] == s[k];
      assert t[..k - from + 1][..k - from] == t[..k - from];
      n := 10 * n + ValueOf(s[k]);
      k := k + 1;
    }
    assert k < |s| ==> t[k - from] == s[k];
    assert k - from == DigitRun(t);
    r := if neg then -n else n;
  }
}
